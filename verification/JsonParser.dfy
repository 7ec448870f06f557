/**
 The recursive-descent parser with its roll-back, over a shared cursor and the registry's memory.
 Every method is proved against the function of the same name in `JsonGrammar`.
 */
module JsonParser {
  import opened Addresses
  import JsonFirstError
  import opened JsonGrammar
  import opened JsonMemory
  import OwnerHeap

  /** What a call leaves behind: the new tree and nothing else, or nothing at all. */
  ghost predicate Outcomes(r: Parsed<Json>, m0: Memory, m1: Memory, a: Addr, sh: Shape) {
    if r.Fail? then a == NULL && m1 == m0
    else a != NULL && a == sh.b && Fits(m1, sh) && Held(sh) == r.val && Beside(m0, {}, m1, Own(sh))
  }

  /** The items read so far in front of what the rest of the text gives. */
  function Prefixed<T>(vs: seq<T>, r: Parsed<seq<T>>): Parsed<seq<T>> {
    match r
    case Got(vs', rest) => Got(vs + vs', rest)
    case Fail(rest) => Fail(rest)
  }

  lemma PrefixedStep<T>(vs: seq<T>, v: T, r: Parsed<seq<T>>)
    ensures Prefixed(vs, Prepend(v, r)) == Prefixed(vs + [v], r)
    ensures Prefixed([], r) == r
  {
    if r.Got? { assert vs + ([v] + r.val) == vs + [v] + r.val && [] + r.val == r.val; }
  }

  datatype Next = Close | Comma | Other

  predicate After(u: string, close: char, next: Next, rest: string) {
    if u != [] && u[0] == close then next == Close && rest == u[1..]
    else if u != [] && u[0] == ',' then next == Comma && rest == SkipBlank(u[1..])
    else next == Other && rest == u
  }

  /** What the whole comes to when `now` was read and `next` seen. */
  function ItemsLeft(lex: Lexer, next: Next, now: seq<Json>, rest: string): Parsed<seq<Json>> {
    if next.Close? then Got(now, rest) else if next.Comma? then Prefixed(now, Items(lex, rest)) else Fail(rest)
  }

  function MembersLeft(lex: Lexer, next: Next, now: seq<Member>, rest: string): Parsed<seq<Member>> {
    if next.Close? then Got(now, rest) else if next.Comma? then Prefixed(now, Members(lex, rest)) else Fail(rest)
  }

  /** Where the loop of an array stands after an item: `was` was read before it. */
  lemma ItemsNext(lex: Lexer, s: string, was: seq<Json>, next: Next, rest: string)
    requires Value(lex, s).Got? && After(SkipBlank(Value(lex, s).rest), ']', next, rest)
    ensures var now := was + [Value(lex, s).val];
      Prefixed(was, Items(lex, s)) == ItemsLeft(lex, next, now, rest)
  {
    PrefixedStep(was, Value(lex, s).val, Items(lex, rest));
  }

  lemma ItemsEndsEarly(lex: Lexer, s: string)
    requires Value(lex, s).Fail?
    ensures Items(lex, s) == Fail(Value(lex, s).rest)
  {
  }

  lemma MembersNext(lex: Lexer, s: string, was: seq<Member>, next: Next, rest: string)
    requires Pair(lex, s).Got? && After(SkipBlank(Pair(lex, s).rest), '}', next, rest)
    ensures var now := was + [Pair(lex, s).val];
      Prefixed(was, Members(lex, s)) == MembersLeft(lex, next, now, rest)
  {
    PrefixedStep(was, Pair(lex, s).val, Members(lex, rest));
  }

  lemma MembersEndEarly(lex: Lexer, s: string)
    requires Pair(lex, s).Fail?
    ensures Members(lex, s) == Fail(Pair(lex, s).rest)
  {
  }

  function AfterKey(lex: Lexer, s: string): Parsed<Json> {
    var u := SkipBlank(s);
    if u == [] || u[0] != ':' then Fail(u) else Value(lex, SkipBlank(u[1..]))
  }

  lemma PairStep(lex: Lexer, s: string)
    ensures var k := RawString(s); var v := AfterKey(lex, k.rest); var r := Pair(lex, s);
      if k.Fail? then r == Fail(k.rest)
      else if v.Fail? then r == Fail(v.rest)
      else r == Got(Member(k.val, v.val), v.rest)
  {
  }

  /** A key allocated before its value. */
  lemma {:induction false} KeyedTree(m0: Memory, m1: Memory, m2: Memory, key: Addr, v: Shape)
    requires key !in m0 && key in m1 && m1 == m0[key := m1[key]]
    requires Fits(m2, v) && Beside(m1, {}, m2, Own(v))
    ensures key in m2 && m2[key] == m1[key] && key !in Own(v) && Beside(m0, {}, m2, Own(v) + {key})
  {
  }

  function Dispatched(lex: Lexer, s: string): Parsed<Json>
    requires s != []
  {
    if s[0] == 'n' then Word(s, "null", JNull)
    else if s[0] == 't' || s[0] == 'f' then Bool(s)
    else if s[0] == '"' then String(s)
    else if s[0] == '[' then Array(lex, s)
    else if s[0] == '{' then Object(lex, s)
    else Number(lex, s)
  }

  lemma Dispatch(lex: Lexer, s: string)
    ensures Value(lex, s) == if SkipBlank(s) == [] then Fail([]) else Dispatched(lex, SkipBlank(s))
  {
  }

  function Padded(a: seq<Addr>, n: nat): (b: seq<Addr>)
    ensures |b| == n && (|a| <= n ==> b[..|a|] == a)
    decreases n - |a|
  {
    if |a| >= n then a[..n] else Padded(a + [NULL], n)
  }

  /** Where a raw string that starts at `i` ends. */
  ghost function RawEnd(s: string, i: nat): nat
    requires i <= |s|
    decreases |s| - i
  {
    if i == |s| || s[i] == '"' then i
    else if s[i] == '\\' && i + 1 < |s| then RawEnd(s, i + 2)
    else RawEnd(s, i + 1)
  }

  lemma {:induction false} RawEndIs(s: string, i: nat)
    requires i <= |s|
    ensures RawEnd(s, i) == i + RawLen(s[i..])
    decreases |s| - i
  {
    if i < |s| && s[i] != '"' {
      assert s[i..][1..] == s[i + 1..];
      if s[i] == '\\' && i + 1 < |s| {
        assert s[i..][2..] == s[i + 2..];
        RawEndIs(s, i + 2);
      } else {
        RawEndIs(s, i + 1);
      }
    }
  }

  class Runtime {
    const lex: Lexer
    var text: string
    var p: nat
    var mem: Memory

    constructor (lex: Lexer)
      ensures this.lex == lex && mem == map[] && text == "" && p == 0
    {
      this.lex, text, p, mem := lex, "", 0, map[];
    }

    // ----- The registry, with an allocator that does not fail -----

    method Alloc(c: Cell) returns (a: Addr)
      modifies this`mem
      ensures a != NULL && a !in old(mem) && mem == old(mem)[a := c]
    {
      ghost var free := OwnerHeap.FreshAddress(mem.Keys, 1, set x | x in mem.Keys && x >= 1);
      a :| a != NULL && a !in mem;
      mem := mem[a := c];
    }

    method Release(a: Addr)
      requires a in mem
      modifies this`mem
      ensures mem == old(mem) - {a}
    {
      mem := mem - {a};
    }

    /** A pointer buffer grows, and may move. */
    method Resize(b: Addr, n: nat) returns (b': Addr)
      requires b != NULL ==> b in mem && mem[b].Slots?
      modifies this`mem
      ensures b' != NULL && (b' in old(mem) ==> b' == b) && b' in mem && mem[b'].Slots? && |mem[b'].a| == n
      ensures Beside(old(mem), Block(b), mem, {b'})
      ensures b != NULL && |old(mem)[b].a| <= n ==> mem[b'].a[..|old(mem)[b].a|] == old(mem)[b].a
    {
      var a := if b == NULL then [] else mem[b].a;
      if b != NULL {
        Release(b);
      }
      b' := Alloc(Slots(Padded(a, n)));
    }

    // ----- Lexical parts -----

    method SkipWhitespace()
      requires p <= |text|
      modifies this`p
      ensures old(p) <= p <= |text| && text[p..] == SkipBlank(text[old(p)..])
    {
      while p < |text| && IsSpace(text[p])
        invariant old(p) <= p <= |text| && SkipBlank(text[p..]) == SkipBlank(text[old(p)..])
      {
        assert text[p..][1..] == text[p + 1..];
        p := p + 1;
      }
    }

    /** Runs to the closing quote, or to the end of the text. */
    method FindQuote()
      requires p <= |text|
      modifies this`p
      ensures p == old(p) + RawLen(text[old(p)..]) && p <= |text|
    {
      RawEndIs(text, p);
      while p < |text| && text[p] != '"'
        invariant p <= |text| && RawEnd(text, p) == RawEnd(text, old(p))
      {
        if text[p] == '\\' && p + 1 < |text| {
          p := p + 1;
        }
        p := p + 1;
      }
    }

    /** The raw string in front, read as the function reads it. */
    lemma RawStringAt(start: nat, end: nat)
      requires 0 < start <= end < |text| && text[start - 1] == '"' && end == start + RawLen(text[start..])
      ensures RawString(text[start - 1..]) == Got(text[start..end], text[end + 1..])
    {
      var s := text[start - 1..];
      assert s[1..] == text[start..];
      assert s[1..RawLen(s[1..]) + 1] == text[start..end] && s[RawLen(s[1..]) + 2..] == text[end + 1..];
    }

    method ParseRawString() returns (str: Addr)
      requires p <= |text|
      modifies this`p, this`mem
      ensures p <= |text| && text[p..] == RawString(text[old(p)..]).rest
      ensures RawString(text[old(p)..]).Fail? ==> str == NULL && mem == old(mem)
      ensures RawString(text[old(p)..]).Got? ==>
        str != NULL && str !in old(mem) && mem == old(mem)[str := Chars(RawString(text[old(p)..]).val)]
    {
      if p == |text| || text[p] != '"' {
        return NULL;
      }
      assert text[p..][1..] == text[p + 1..];
      p := p + 1;
      var start := p;
      FindQuote();
      if p == |text| {
        return NULL;
      }
      RawStringAt(start, p);
      str := Alloc(Chars(text[start..p]));
      p := p + 1;
    }

    // ----- Leaves -----

    method ParseNull() returns (a: Addr, ghost sh: Shape)
      requires p <= |text|
      modifies this`p, this`mem
      ensures p <= |text| && text[p..] == Word(text[old(p)..], "null", JNull).rest
      ensures Outcomes(Word(text[old(p)..], "null", JNull), old(mem), mem, a, sh)
    {
      a, sh := NULL, Leaf(NULL, JNull);
      if "null" <= text[p..] {
        p := p + 4;
        a := Alloc(NullNode);
        sh := Leaf(a, JNull);
        LeafFits(old(mem), a, NullNode, JNull);
      }
    }

    method ParseBool() returns (a: Addr, ghost sh: Shape)
      requires p <= |text|
      modifies this`p, this`mem
      ensures p <= |text| && text[p..] == Bool(text[old(p)..]).rest
      ensures Outcomes(Bool(text[old(p)..]), old(mem), mem, a, sh)
    {
      a, sh := NULL, Leaf(NULL, JNull);
      if "true" <= text[p..] {
        p := p + 4;
        a := Alloc(BoolNode(true));
        sh := Leaf(a, JBool(true));
        LeafFits(old(mem), a, BoolNode(true), JBool(true));
      } else if "false" <= text[p..] {
        p := p + 5;
        a := Alloc(BoolNode(false));
        sh := Leaf(a, JBool(false));
        LeafFits(old(mem), a, BoolNode(false), JBool(false));
      }
    }

    method ParseNumber() returns (a: Addr, ghost sh: Shape)
      requires p <= |text|
      modifies this`p, this`mem
      ensures p <= |text| && text[p..] == Number(lex, text[old(p)..]).rest
      ensures Outcomes(Number(lex, text[old(p)..]), old(mem), mem, a, sh)
    {
      a, sh := NULL, Leaf(NULL, JNull);
      var n := lex(text[p..]);
      if n == 0 {
        return;
      }
      var lexeme := text[p..p + n];
      assert lexeme == text[p..][..n];
      p := p + n;
      a := Alloc(NumberNode(lexeme));
      sh := Leaf(a, JNum(lexeme));
      LeafFits(old(mem), a, NumberNode(lexeme), JNum(lexeme));
    }

    method ParseString() returns (a: Addr, ghost sh: Shape)
      requires p <= |text|
      modifies this`p, this`mem
      ensures p <= |text| && text[p..] == String(text[old(p)..]).rest
      ensures Outcomes(String(text[old(p)..]), old(mem), mem, a, sh)
    {
      a, sh := NULL, Leaf(NULL, JNull);
      var str := ParseRawString();
      if str == NULL {
        return;
      }
      a := Alloc(StringNode(str));
      sh := Str(a, str, RawString(text[old(p)..]).val);
    }

    // ----- json_free -----

    method FreeItems(items: Addr, count: nat, ghost sh: Shape)
      requires Fits(mem, sh) && sh.Arr? && items == sh.buf && count == |sh.parts|
      modifies this`mem
      ensures Beside(old(mem), OwnParts(sh.parts), mem, {})
      decreases sh, 0
    {
      ghost var m0 := mem;
      var i := 0;
      PartsAreThere(m0, sh.parts);
      while i < count
        invariant i <= count && Beside(m0, OwnParts(sh.parts[..i]), mem, {}) && OwnParts(sh.parts[..i]) <= OwnParts(sh.parts)
      {
        ghost var m1 := mem;
        PartAt(m0, sh.parts, i);
        NextToFree(m0, m1, sh.parts, i);
        SlotHolds(m0, m1, OwnParts(sh.parts[..i]), items, sh.cap, Roots(sh.parts), i);
        FreeTree(mem[items].a[i], sh.parts[i].v);
        OneMoreFreed(m0, m1, mem, sh.parts, i);
        i := i + 1;
      }
      assert sh.parts[..count] == sh.parts;
    }

    method FreeMembers(keys: Addr, values: Addr, count: nat, ghost sh: Shape)
      requires Fits(mem, sh) && sh.Obj? && keys == sh.keys && values == sh.buf && count == |sh.parts|
      modifies this`mem
      ensures Beside(old(mem), OwnParts(sh.parts), mem, {})
      decreases sh, 0
    {
      ghost var m0 := mem;
      var i := 0;
      assert sh.parts[..0] == [] && Beside(m0, OwnParts([]), mem, {});
      hide Fits, Beside, OwnParts, Own;
      while i < count
        invariant i <= count && Beside(m0, OwnParts(sh.parts[..i]), mem, {})
      {
        ghost var m1 := mem;
        MemberToFree(m0, m1, sh, i);
        var value := mem[values].a[i];
        Release(mem[keys].a[i]);
        FreeTree(value, sh.parts[i].v);
        MemberFreed(m0, m1, mem, sh, i);
        i := i + 1;
      }
      assert sh.parts[..count] == sh.parts;
    }

    /** Every block of the tree is released, each while it is live and so once, and no other. */
    method FreeTree(a: Addr, ghost sh: Shape)
      requires Fits(mem, sh) && a == sh.b
      modifies this`mem
      ensures Beside(old(mem), Own(sh), mem, {})
      decreases sh, 1
    {
      match mem[a] {
        case StringNode(str) =>
          Release(str);
        case ArrayNode(items, count, _) =>
          if items != NULL {
            FreeItems(items, count, sh);
            Release(items);
          }
        case ObjectNode(keys, values, count, _) =>
          if keys != NULL {
            FreeMembers(keys, values, count, sh);
            Release(keys);
            Release(values);
          }
        case _ =>
      }
      Release(a);
    }

    // ----- Arrays and objects that grow -----

    method GrowArray(a: Addr, ghost sh: Shape) returns (ghost sh': Shape)
      requires Fits(mem, sh) && sh.Arr? && a == sh.b && |sh.parts| == sh.cap
      modifies this`mem
      ensures sh'.Arr? && sh' == Arr(a, sh'.buf, if sh.cap == 0 then 4 else 2 * sh.cap, sh.parts) && sh'.cap > |sh.parts|
      ensures Fits(mem, sh') && Beside(old(mem), Own(sh), mem, Own(sh'))
    {
      var n := mem[a];
      ghost var m0 := mem;
      PartsAreThere(m0, sh.parts);
      var cap := if n.cap == 0 then 4 else n.cap * 2;
      var items := Resize(n.items, cap);
      BufferGrows(m0, mem, n.items, items, n.cap, cap, Roots(sh.parts));
      mem := mem[a := ArrayNode(items, n.count, cap)];
      ArrayGrows(m0, mem, sh, items, cap);
      sh' := Arr(a, items, cap, sh.parts);
    }

    /** An item is appended to its array, which grows when it is full. */
    method AddItem(a: Addr, item: Addr, ghost sh: Shape, ghost v: Shape) returns (ghost sh': Shape)
      requires Fits(mem, sh) && sh.Arr? && a == sh.b && Fits(mem, v) && item == v.b && Own(sh) !! Own(v)
      modifies this`mem
      ensures sh'.Arr? && sh' == Arr(a, sh'.buf, sh'.cap, sh.parts + [Part(NULL, [], v)])
      ensures sh'.cap == if |sh.parts| < sh.cap then sh.cap else if sh.cap == 0 then 4 else 2 * sh.cap
      ensures Fits(mem, sh') && Beside(old(mem), Own(sh) + Own(v), mem, Own(sh'))
    {
      ghost var s1 := sh;
      Lengths(sh.parts);
      if mem[a].count >= mem[a].cap {
        s1 := GrowArray(a, sh);
        Untouched(old(mem), Own(sh), mem, Own(s1), v);
      }
      ghost var m1 := mem;
      var n := mem[a];
      mem := mem[n.items := Slots(mem[n.items].a[n.count := item])];
      mem := mem[a := ArrayNode(n.items, n.count + 1, n.cap)];
      BufferStores(m1, mem, n.items, n.cap, Roots(sh.parts), item);
      ArrayStores(m1, mem, s1, v);
      sh' := Arr(a, n.items, n.cap, sh.parts + [Part(NULL, [], v)]);
    }

    method GrowObject(a: Addr, ghost sh: Shape) returns (ghost sh': Shape)
      requires Fits(mem, sh) && sh.Obj? && a == sh.b && |sh.parts| == sh.cap
      modifies this`mem
      ensures sh'.Obj? && sh' == Obj(a, sh'.keys, sh'.buf, if sh.cap == 0 then 4 else 2 * sh.cap, sh.parts) && sh'.cap > |sh.parts|
      ensures Fits(mem, sh') && Beside(old(mem), Own(sh), mem, Own(sh'))
    {
      var n := mem[a];
      ghost var m0 := mem;
      PartsAreThere(m0, sh.parts);
      assert n == ObjectNode(sh.keys, sh.buf, |sh.parts|, sh.cap) && (sh.keys != NULL ==> sh.keys != sh.buf);
      assert a != sh.keys && a != sh.buf && Buffer(m0, sh.keys, sh.cap, Keys(sh.parts)) && Buffer(m0, sh.buf, sh.cap, Roots(sh.parts));
      hide Fits, OwnParts, Keyed;
      var cap := if n.cap == 0 then 4 else n.cap * 2;
      var keys := Resize(n.keys, cap);
      BufferGrows(m0, mem, n.keys, keys, n.cap, cap, Keys(sh.parts));
      ghost var m1 := mem;
      var values := Resize(n.values, cap);
      BufferGrows(m1, mem, n.values, values, n.cap, cap, Roots(sh.parts));
      mem := mem[a := ObjectNode(keys, values, n.count, cap)];
      ObjectGrows(m0, mem, sh, keys, values, cap);
      sh' := Obj(a, keys, values, cap, sh.parts);
    }

    /** A member is appended to its object, both of whose buffers grow when they are full. */
    method AddMember(a: Addr, key: Addr, value: Addr, ghost sh: Shape, ghost name: string, ghost v: Shape) returns (ghost sh': Shape)
      requires Fits(mem, sh) && sh.Obj? && a == sh.b && FitsPart(mem, Part(key, name, v)) && key != NULL && value == v.b
      requires Own(sh) !! Own(v) + {key}
      modifies this`mem
      ensures sh'.Obj? && sh' == Obj(a, sh'.keys, sh'.buf, sh'.cap, sh.parts + [Part(key, name, v)])
      ensures sh'.cap == if |sh.parts| < sh.cap then sh.cap else if sh.cap == 0 then 4 else 2 * sh.cap
      ensures Fits(mem, sh') && Beside(old(mem), Own(sh) + (Own(v) + {key}), mem, Own(sh'))
    {
      ghost var s1, o := sh, Own(v) + {key};
      ObjectCell(mem, sh);
      BesideSame(mem, Own(sh) + o);
      hide Fits, Beside, Own, OwnParts, FitsPart;
      if mem[a].count >= mem[a].cap {
        s1 := GrowObject(a, sh);
        PartUntouched(old(mem), Own(sh), mem, Own(s1), Part(key, name, v));
        ObjectCell(mem, s1);
      }
      ghost var m1 := mem;
      StoreMember(a, key, value, s1);
      PartIs(m1, Part(key, name, v));
      ObjectStores(m1, mem, s1, key, name, v);
      sh' := Obj(a, s1.keys, s1.buf, s1.cap, sh.parts + [Part(key, name, v)]);
      BesideTrans(old(mem), Own(sh) + o, m1, Own(s1) + o, mem, Own(sh'));
    }

    method StoreMember(a: Addr, key: Addr, value: Addr, ghost sh: Shape)
      requires Fits(mem, sh) && sh.Obj? && a == sh.b && |sh.parts| < sh.cap
      modifies this`mem
      ensures Beside(old(mem), {a, sh.keys, sh.buf}, mem, {a, sh.keys, sh.buf})
      ensures a in mem && mem[a] == ObjectNode(sh.keys, sh.buf, |sh.parts| + 1, sh.cap)
      ensures Buffer(mem, sh.keys, sh.cap, Keys(sh.parts) + [key]) && Buffer(mem, sh.buf, sh.cap, Roots(sh.parts) + [value])
    {
      ghost var m0 := mem;
      Lengths(sh.parts);
      var n := mem[a];
      mem := mem[n.keys := Slots(mem[n.keys].a[n.count := key])];
      mem := mem[n.values := Slots(mem[n.values].a[n.count := value])];
      mem := mem[a := ObjectNode(n.keys, n.values, n.count + 1, n.cap)];
      BufferStores(m0, mem, n.keys, n.cap, Keys(sh.parts), key);
      BufferStores(m0, mem, n.values, n.cap, Roots(sh.parts), value);
    }

    // ----- Values -----

    /** The opening bracket and white space, and the closing bracket if it comes at once. */
    method Open(close: char) returns (empty: bool)
      requires p < |text|
      modifies this`p
      ensures old(p) < p <= |text|
      ensures var u := SkipBlank(text[old(p)..][1..]);
        if u != [] && u[0] == close then empty && text[p..] == u[1..] else !empty && text[p..] == u
    {
      assert text[p..][1..] == text[p + 1..];
      p := p + 1;
      SkipWhitespace();
      empty := p < |text| && text[p] == close;
      if empty {
        assert text[p..][1..] == text[p + 1..];
        p := p + 1;
      }
    }

    /** The colon, with the white space around it. */
    method Colon() returns (ok: bool)
      requires p <= |text|
      modifies this`p
      ensures p <= |text| && (ok ==> old(p) < p)
      ensures var u := SkipBlank(text[old(p)..]);
        if u != [] && u[0] == ':' then ok && text[p..] == SkipBlank(u[1..]) else !ok && text[p..] == u
    {
      SkipWhitespace();
      ok := p < |text| && text[p] == ':';
      if ok {
        assert text[p..][1..] == text[p + 1..];
        p := p + 1;
        SkipWhitespace();
      }
    }

    /** What follows an item: the closing bracket, a comma with white space, or something else. */
    method Separator(close: char) returns (next: Next)
      requires p <= |text| && close != ','
      modifies this`p
      ensures old(p) <= p <= |text| && After(SkipBlank(text[old(p)..]), close, next, text[p..])
    {
      SkipWhitespace();
      if p < |text| && text[p] == close {
        assert text[p..][1..] == text[p + 1..];
        p := p + 1;
        return Close;
      } else if p < |text| && text[p] == ',' {
        assert text[p..][1..] == text[p + 1..];
        p := p + 1;
        SkipWhitespace();
        return Comma;
      }
      return Other;
    }

    /** The next item is read and appended; if there is none the whole array goes. */
    method ParseItem(a: Addr, ghost m0: Memory, ghost sh: Shape) returns (ok: bool, ghost sh': Shape)
      requires p <= |text| && Fits(mem, sh) && sh.Arr? && a == sh.b && Beside(m0, {}, mem, Own(sh))
      modifies this`p, this`mem
      ensures p <= |text| && text[p..] == Value(lex, text[old(p)..]).rest
      ensures ok <==> Value(lex, text[old(p)..]).Got?
      ensures !ok ==> mem == m0
      ensures ok ==> Fits(mem, sh') && sh'.Arr? && a == sh'.b && Beside(m0, {}, mem, Own(sh'))
      ensures ok ==> HeldItems(sh'.parts) == HeldItems(sh.parts) + [Value(lex, text[old(p)..]).val]
      decreases |text| - p, 4
    {
      ghost var m1 := mem;
      sh' := sh;
      var item; ghost var v;
      item, v := ParseValue();
      ok := item != NULL;
      if ok {
        OwnIsThere(mem, v);
        SideBySide(m0, m1, mem, Own(sh), sh, Own(v));
        ghost var m2 := mem;
        sh' := AddItem(a, item, sh, v);
        BesideTrans(m0, {}, m2, Own(sh) + Own(v), mem, Own(sh'));
        HeldAppend(sh.parts, Part(NULL, [], v));
      } else {
        Discard(a, m0, sh);
      }
    }

    /** Roll-back: what was allocated since `m0` is released. */
    method Discard(a: Addr, ghost m0: Memory, ghost sh: Shape)
      requires Fits(mem, sh) && a == sh.b && Beside(m0, {}, mem, Own(sh))
      modifies this`mem
      ensures mem == m0
    {
      ghost var m1 := mem;
      FreeTree(a, sh);
      BesideTrans(m0, {}, m1, Own(sh), mem, {});
      Restored(m0, mem);
    }

    /** One turn of the loop; if it fails the whole array goes. */
    method ParseItemTurn(a: Addr, ghost m0: Memory, ghost sh: Shape) returns (next: Next, ghost sh': Shape)
      requires p <= |text| && Fits(mem, sh) && sh.Arr? && a == sh.b && Beside(m0, {}, mem, Own(sh))
      modifies this`p, this`mem
      ensures p <= |text| && (next != Other ==> old(p) < p)
      ensures next == Other ==> mem == m0
      ensures next != Other ==> Fits(mem, sh') && sh'.Arr? && a == sh'.b && Beside(m0, {}, mem, Own(sh'))
      ensures Prefixed(HeldItems(sh.parts), Items(lex, text[old(p)..])) ==
              ItemsLeft(lex, next, if next == Other || !sh'.Arr? then [] else HeldItems(sh'.parts), text[p..])
      decreases |text| - p, 7
    {
      ghost var s := text[p..];
      var ok;
      ok, sh' := ParseItem(a, m0, sh);
      if !ok {
        ItemsEndsEarly(lex, s);
        return Other, sh';
      }
      next := Separator(']');
      ItemsNext(lex, s, HeldItems(sh.parts), next, text[p..]);
      if next == Other {
        Discard(a, m0, sh');
      }
    }

    /** The items up to the closing bracket; the array is appended to as they come. */
    method ParseItems(a: Addr, ghost m0: Memory, ghost sh: Shape) returns (ok: bool, ghost sh': Shape)
      requires p <= |text| && Fits(mem, sh) && sh.Arr? && a == sh.b && Beside(m0, {}, mem, Own(sh)) && sh.parts == []
      modifies this`p, this`mem
      ensures p <= |text| && text[p..] == Items(lex, text[old(p)..]).rest
      ensures ok <==> Items(lex, text[old(p)..]).Got?
      ensures !ok ==> mem == m0
      ensures ok ==> Fits(mem, sh') && sh'.Arr? && a == sh'.b && Beside(m0, {}, mem, Own(sh'))
      ensures ok ==> HeldItems(sh'.parts) == Items(lex, text[old(p)..]).val
      decreases |text| - p, 8
    {
      ghost var all := Items(lex, text[p..]);
      PrefixedStep([], JNull, all);
      sh' := sh;
      var next := Comma;
      while next == Comma
        invariant old(p) <= p <= |text|
        invariant next == Other ==> mem == m0
        invariant next != Other ==> Fits(mem, sh') && sh'.Arr? && a == sh'.b && Beside(m0, {}, mem, Own(sh'))
        invariant all == ItemsLeft(lex, next, if next == Other || !sh'.Arr? then [] else HeldItems(sh'.parts), text[p..])
        decreases next == Comma, |text| - p
      {
        next, sh' := ParseItemTurn(a, m0, sh');
      }
      ok := next == Close;
    }

    method ParseArray() returns (a: Addr, ghost sh: Shape)
      requires p < |text| && text[p] == '['
      modifies this`p, this`mem
      ensures p <= |text| && text[p..] == Array(lex, text[old(p)..]).rest
      ensures Outcomes(Array(lex, text[old(p)..]), old(mem), mem, a, sh)
      decreases |text| - p, 0
    {
      ghost var m0 := mem;
      var empty := Open(']');
      a := Alloc(ArrayNode(NULL, 0, 0));
      sh := Arr(a, NULL, 0, []);
      if empty {
        return;
      }
      var ok;
      ok, sh := ParseItems(a, m0, sh);
      if !ok {
        a := NULL;
      }
    }

    method ParseScalar() returns (a: Addr, ghost sh: Shape)
      requires p < |text| && text[p] != '[' && text[p] != '{'
      modifies this`p, this`mem
      ensures p <= |text| && text[p..] == Dispatched(lex, text[old(p)..]).rest
      ensures Outcomes(Dispatched(lex, text[old(p)..]), old(mem), mem, a, sh)
    {
      match text[p]
      case 'n' => a, sh := ParseNull();
      case 't' => a, sh := ParseBool();
      case 'f' => a, sh := ParseBool();
      case '"' => a, sh := ParseString();
      case _ => a, sh := ParseNumber();
    }

    /** The colon and the value after a key. */
    method ParseAfterKey() returns (a: Addr, ghost sh: Shape)
      requires p <= |text|
      modifies this`p, this`mem
      ensures p <= |text| && text[p..] == AfterKey(lex, text[old(p)..]).rest
      ensures Outcomes(AfterKey(lex, text[old(p)..]), old(mem), mem, a, sh)
      decreases |text| - p, 4
    {
      a, sh := NULL, Leaf(NULL, JNull);
      var colon := Colon();
      if colon {
        a, sh := ParseValue();
      }
    }

    /** A key, the colon and a value; on failure the key, if there was one, is released again. */
    method ParsePair() returns (key: Addr, value: Addr, ghost v: Shape)
      requires p <= |text|
      modifies this`p, this`mem
      ensures p <= |text| && text[p..] == Pair(lex, text[old(p)..]).rest
      ensures key == NULL <==> Pair(lex, text[old(p)..]).Fail?
      ensures key == NULL ==> mem == old(mem)
      ensures key != NULL ==> FitsPart(mem, Part(key, Pair(lex, text[old(p)..]).val.key, v)) && value == v.b
      ensures key != NULL ==> Held(v) == Pair(lex, text[old(p)..]).val.value
      ensures key != NULL ==> Beside(old(mem), {}, mem, Own(v) + {key}) && Own(v) + {key} <= mem.Keys
      decreases |text| - p, 5
    {
      ghost var m0 := mem;
      PairStep(lex, text[p..]);
      value, v := NULL, Leaf(NULL, JNull);
      key := ParseRawString();
      if key == NULL {
        return;
      }
      ghost var m1 := mem;
      value, v := ParseAfterKey();
      if value != NULL {
        OwnIsThere(mem, v);
        KeyedTree(m0, m1, mem, key, v);
      } else {
        Release(key);
        Restored(m0, mem);
        key := NULL;
      }
    }

    /** The next member is read and appended; if there is none the whole object goes. */
    method ParseMember(a: Addr, ghost m0: Memory, ghost sh: Shape) returns (ok: bool, ghost sh': Shape)
      requires p <= |text| && Fits(mem, sh) && sh.Obj? && a == sh.b && Beside(m0, {}, mem, Own(sh))
      modifies this`p, this`mem
      ensures p <= |text| && text[p..] == Pair(lex, text[old(p)..]).rest
      ensures ok <==> Pair(lex, text[old(p)..]).Got?
      ensures !ok ==> mem == m0
      ensures ok ==> Fits(mem, sh') && sh'.Obj? && a == sh'.b && Beside(m0, {}, mem, Own(sh'))
      ensures ok ==> HeldMembers(sh'.parts) == HeldMembers(sh.parts) + [Pair(lex, text[old(p)..]).val]
      decreases |text| - p, 6
    {
      ghost var m1, name := mem, (match Pair(lex, text[p..]) case Got(m, _) => m.key case Fail(_) => []);
      sh' := sh;
      var key, value; ghost var v;
      key, value, v := ParsePair();
      ok := key != NULL;
      if ok {
        SideBySide(m0, m1, mem, Own(sh), sh, Own(v) + {key});
        ghost var m2 := mem;
        sh' := AddMember(a, key, value, sh, name, v);
        BesideTrans(m0, {}, m2, Own(sh) + (Own(v) + {key}), mem, Own(sh'));
        HeldAppend(sh.parts, Part(key, name, v));
      } else {
        Discard(a, m0, sh);
      }
    }

    /** One turn of the loop; if it fails the whole object goes. */
    method ParseMemberTurn(a: Addr, ghost m0: Memory, ghost sh: Shape) returns (next: Next, ghost sh': Shape)
      requires p <= |text| && Fits(mem, sh) && sh.Obj? && a == sh.b && Beside(m0, {}, mem, Own(sh))
      modifies this`p, this`mem
      ensures p <= |text| && (next != Other ==> old(p) < p)
      ensures next == Other ==> mem == m0
      ensures next != Other ==> Fits(mem, sh') && sh'.Obj? && a == sh'.b && Beside(m0, {}, mem, Own(sh'))
      ensures Prefixed(HeldMembers(sh.parts), Members(lex, text[old(p)..])) ==
              MembersLeft(lex, next, if next == Other || !sh'.Obj? then [] else HeldMembers(sh'.parts), text[p..])
      decreases |text| - p, 7
    {
      ghost var s := text[p..];
      var ok;
      ok, sh' := ParseMember(a, m0, sh);
      if !ok {
        MembersEndEarly(lex, s);
        return Other, sh';
      }
      next := Separator('}');
      MembersNext(lex, s, HeldMembers(sh.parts), next, text[p..]);
      if next == Other {
        Discard(a, m0, sh');
      }
    }

    /** The members up to the closing bracket; the object is appended to as they come. */
    method ParseMembers(a: Addr, ghost m0: Memory, ghost sh: Shape) returns (ok: bool, ghost sh': Shape)
      requires p <= |text| && Fits(mem, sh) && sh.Obj? && a == sh.b && Beside(m0, {}, mem, Own(sh)) && sh.parts == []
      modifies this`p, this`mem
      ensures p <= |text| && text[p..] == Members(lex, text[old(p)..]).rest
      ensures ok <==> Members(lex, text[old(p)..]).Got?
      ensures !ok ==> mem == m0
      ensures ok ==> Fits(mem, sh') && sh'.Obj? && a == sh'.b && Beside(m0, {}, mem, Own(sh'))
      ensures ok ==> HeldMembers(sh'.parts) == Members(lex, text[old(p)..]).val
      decreases |text| - p, 8
    {
      ghost var all := Members(lex, text[p..]);
      PrefixedStep([], Member([], JNull), all);
      sh' := sh;
      var next := Comma;
      while next == Comma
        invariant old(p) <= p <= |text|
        invariant next == Other ==> mem == m0
        invariant next != Other ==> Fits(mem, sh') && sh'.Obj? && a == sh'.b && Beside(m0, {}, mem, Own(sh'))
        invariant all == MembersLeft(lex, next, if next == Other || !sh'.Obj? then [] else HeldMembers(sh'.parts), text[p..])
        decreases next == Comma, |text| - p
      {
        next, sh' := ParseMemberTurn(a, m0, sh');
      }
      ok := next == Close;
    }

    method ParseObject() returns (a: Addr, ghost sh: Shape)
      requires p < |text| && text[p] == '{'
      modifies this`p, this`mem
      ensures p <= |text| && text[p..] == Object(lex, text[old(p)..]).rest
      ensures Outcomes(Object(lex, text[old(p)..]), old(mem), mem, a, sh)
      decreases |text| - p, 0
    {
      ghost var m0 := mem;
      var empty := Open('}');
      a := Alloc(ObjectNode(NULL, NULL, 0, 0));
      sh := Obj(a, NULL, NULL, 0, []);
      if empty {
        return;
      }
      var ok;
      ok, sh := ParseMembers(a, m0, sh);
      if !ok {
        a := NULL;
      }
    }

    method ParseNonArray(ghost r: Parsed<Json>) returns (a: Addr, ghost sh: Shape)
      requires p < |text| && text[p] != '['
      requires r == Dispatched(lex, text[p..])
      modifies this`p, this`mem
      ensures p <= |text| && text[p..] == r.rest
      ensures Outcomes(r, old(mem), mem, a, sh)
      decreases |text| - p, 1
    {
      if text[p] == '{' {
        a, sh := ParseObject();
      } else {
        a, sh := ParseScalar();
      }
    }

    method ParseSolid(ghost r: Parsed<Json>) returns (a: Addr, ghost sh: Shape)
      requires p < |text|
      requires r == Dispatched(lex, text[p..])
      modifies this`p, this`mem
      ensures p <= |text| && text[p..] == r.rest
      ensures Outcomes(r, old(mem), mem, a, sh)
      decreases |text| - p, 2
    {
      if text[p] == '[' {
        a, sh := ParseArray();
      } else {
        a, sh := ParseNonArray(r);
      }
    }

    method ParseValue() returns (a: Addr, ghost sh: Shape)
      requires p <= |text|
      modifies this`p, this`mem
      ensures p <= |text| && text[p..] == Value(lex, text[old(p)..]).rest
      ensures Outcomes(Value(lex, text[old(p)..]), old(mem), mem, a, sh)
      decreases |text| - p, 3
    {
      Dispatch(lex, text[p..]);
      SkipWhitespace();
      if p == |text| {
        return NULL, Leaf(NULL, JNull);
      }
      a, sh := ParseSolid(Value(lex, text[old(p)..]));
    }

    // ----- json_parse -----

    /**
     A text is accepted exactly when the grammar function accepts it: then the memory has gained the
     blocks of its tree, otherwise it is as it was and the error position is where the text goes wrong.
     */
    method Parse(json: string) returns (root: Addr, errorPos: nat, ghost sh: Shape)
      modifies this
      ensures root != NULL <==> Document(lex, json).Accepted?
      ensures root != NULL ==> root == sh.b && Fits(mem, sh) && Held(sh) == Document(lex, json).t && Beside(old(mem), {}, mem, Own(sh))
      ensures root == NULL ==> mem == old(mem) && errorPos <= |json| && json[errorPos..] == Document(lex, json).rest
      ensures root == NULL && JsonFirstError.Firm(lex) ==> JsonFirstError.WrongAt(lex, json, errorPos)
    {
      text, p := json, 0;
      ghost var m0 := mem;
      assert text[p..] == json;
      root, sh := ParseValue();
      SkipWhitespace();
      errorPos := p;
      if root != NULL && p < |text| {
        Discard(root, m0, sh);
        root := NULL;
      }
      if root == NULL && JsonFirstError.Firm(lex) {
        JsonFirstError.ReportsWhereWrong(lex, json, errorPos);
      }
    }

    // ----- json_get_object_item -----

    ghost predicate Holds(a: Addr, sh: Shape, t: Json)
      reads this`mem
    {
      a == sh.b && Fits(mem, sh) && Held(sh) == t
    }

    /** The value of the first member with the key, as the block that holds it. */
    method GetObjectItem(a: Addr, key: string, ghost sh: Shape) returns (value: Addr, ghost i: nat)
      requires a != NULL ==> a == sh.b && Fits(mem, sh)
      ensures a == NULL || !sh.Obj? ==> value == NULL
      ensures a != NULL && sh.Obj? ==> var ms := Held(sh).members;
        && i <= |ms| && (forall j :: 0 <= j < i ==> ms[j].key != key)
        && (if i == |ms| then value == NULL else value != NULL && ms[i].key == key && i < |sh.parts| && Holds(value, sh.parts[i].v, ms[i].value))
    {
      value, i := NULL, 0;
      if a == NULL || !mem[a].ObjectNode? {
        return;
      }
      var n := mem[a];
      var k := 0;
      MembersAt(sh.parts);
      assert n == ObjectNode(sh.keys, sh.buf, |sh.parts|, sh.cap);
      hide Fits;
      while k < n.count
        invariant k <= n.count && forall j :: 0 <= j < k ==> sh.parts[j].name != key
      {
        MemberThere(mem, sh, k);
        if mem[mem[n.keys].a[k]].s == key {
          value, i := mem[n.values].a[k], k;
          return;
        }
        k := k + 1;
      }
      i := k;
    }
  }
}
