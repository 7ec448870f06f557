/**
 JSON trees in memory: nodes, strings and growable pointer buffers, each a block of the registry.
 A `Shape` names the blocks of one tree; `Fits` says that they are there and hold it.
 */
module JsonMemory {
  import opened Addresses
  import opened JsonGrammar

  datatype Cell =
    | Chars(s: string)
    | Slots(a: seq<Addr>)
    | NullNode
    | BoolNode(b: bool)
    | NumberNode(lexeme: string)
    | StringNode(str: Addr)
    | ArrayNode(items: Addr, count: nat, cap: nat)
    | ObjectNode(keys: Addr, values: Addr, count: nat, cap: nat)

  type Memory = map<Addr, Cell>

  datatype Shape =
    | Leaf(b: Addr, t: Json)
    | Str(b: Addr, str: Addr, raw: string)
    | Arr(b: Addr, buf: Addr, cap: nat, parts: seq<Part>)
    | Obj(b: Addr, keys: Addr, buf: Addr, cap: nat, parts: seq<Part>)

  /** An item or, with a key, a member. */
  datatype Part = Part(key: Addr, name: string, v: Shape)

  ghost function Block(a: Addr): set<Addr> {
    if a == NULL then {} else {a}
  }

  /** The blocks of a tree. */
  ghost function Own(sh: Shape): set<Addr> {
    match sh
    case Leaf(b, _) => {b}
    case Str(b, str, _) => {b, str}
    case Arr(b, buf, _, parts) => {b} + Block(buf) + OwnParts(parts)
    case Obj(b, keys, buf, _, parts) => {b} + Block(keys) + Block(buf) + OwnParts(parts)
  }

  ghost function OwnPart(p: Part): set<Addr> {
    if p.key == NULL then Own(p.v) else {p.key} + Own(p.v)
  }

  ghost function OwnParts(parts: seq<Part>): set<Addr> {
    if parts == [] then {} else OwnParts(parts[..|parts| - 1]) + OwnPart(parts[|parts| - 1])
  }

  ghost function Roots(parts: seq<Part>): seq<Addr> {
    if parts == [] then [] else Roots(parts[..|parts| - 1]) + [parts[|parts| - 1].v.b]
  }

  ghost function Keys(parts: seq<Part>): seq<Addr> {
    if parts == [] then [] else Keys(parts[..|parts| - 1]) + [parts[|parts| - 1].key]
  }

  /** The tree that is held. */
  ghost function Held(sh: Shape): Json {
    match sh
    case Leaf(_, t) => t
    case Str(_, _, raw) => JStr(raw)
    case Arr(_, _, _, parts) => JArr(HeldItems(parts))
    case Obj(_, _, _, _, parts) => JObj(HeldMembers(parts))
  }

  ghost function HeldItems(parts: seq<Part>): seq<Json> {
    if parts == [] then [] else HeldItems(parts[..|parts| - 1]) + [Held(parts[|parts| - 1].v)]
  }

  ghost function HeldMembers(parts: seq<Part>): seq<Member> {
    if parts == [] then []
    else HeldMembers(parts[..|parts| - 1]) + [Member(parts[|parts| - 1].name, Held(parts[|parts| - 1].v))]
  }

  predicate LeafCell(c: Cell, t: Json) {
    match t
    case JNull => c == NullNode
    case JBool(b) => c == BoolNode(b)
    case JNum(lexeme) => c == NumberNode(lexeme)
    case _ => false
  }

  /** A buffer with room for `cap` pointers that starts with `addrs`; none at all for no room. */
  ghost predicate Buffer(mem: Memory, buf: Addr, cap: nat, addrs: seq<Addr>) {
    if cap == 0 then buf == NULL && addrs == []
    else
      && buf != NULL && buf in mem && mem[buf].Slots?
      && |mem[buf].a| == cap && |addrs| <= cap && mem[buf].a[..|addrs|] == addrs
  }

  ghost predicate Keyed(parts: seq<Part>, keyed: bool) {
    forall i :: 0 <= i < |parts| ==> (parts[i].key != NULL <==> keyed)
  }

  /** The blocks of a tree are in memory, distinct, and hold it. */
  ghost predicate Fits(mem: Memory, sh: Shape) {
    sh.b != NULL && sh.b in mem &&
    match sh
    case Leaf(b, t) => LeafCell(mem[b], t)
    case Str(b, str, raw) => mem[b] == StringNode(str) && str != b && str != NULL && str in mem && mem[str] == Chars(raw)
    case Arr(b, buf, cap, parts) =>
      && mem[b] == ArrayNode(buf, |parts|, cap) && Buffer(mem, buf, cap, Roots(parts)) && FitsParts(mem, parts)
      && b != buf && b !in OwnParts(parts) && buf !in OwnParts(parts) && Keyed(parts, false)
    case Obj(b, keys, buf, cap, parts) =>
      && mem[b] == ObjectNode(keys, buf, |parts|, cap) && Buffer(mem, keys, cap, Keys(parts)) && Buffer(mem, buf, cap, Roots(parts))
      && FitsParts(mem, parts) && b != buf && b != keys && (keys != NULL ==> keys != buf)
      && b !in OwnParts(parts) && keys !in OwnParts(parts) && buf !in OwnParts(parts) && Keyed(parts, true)
  }

  ghost predicate FitsPart(mem: Memory, p: Part) {
    Fits(mem, p.v) && (p.key != NULL ==> p.key in mem && mem[p.key] == Chars(p.name) && p.key !in Own(p.v))
  }

  ghost predicate FitsParts(mem: Memory, parts: seq<Part>) {
    parts == [] ||
    (var n := |parts| - 1;
     FitsParts(mem, parts[..n]) && FitsPart(mem, parts[n]) && OwnParts(parts[..n]) !! OwnPart(parts[n]))
  }

  // ----- What Fits depends on -----

  lemma {:induction false} OwnIsThere(mem: Memory, sh: Shape)
    requires Fits(mem, sh)
    ensures Own(sh) <= mem.Keys && NULL !in Own(sh)
    decreases sh
  {
    if sh.Arr? || sh.Obj? { PartsAreThere(mem, sh.parts); }
  }

  lemma {:induction false} PartsAreThere(mem: Memory, parts: seq<Part>)
    requires FitsParts(mem, parts)
    ensures OwnParts(parts) <= mem.Keys && NULL !in OwnParts(parts)
    decreases parts
  {
    if parts != [] {
      PartsAreThere(mem, parts[..|parts| - 1]);
      OwnIsThere(mem, parts[|parts| - 1].v);
    }
  }

  ghost predicate Agree(mem: Memory, mem': Memory, o: set<Addr>) {
    forall a :: a in o ==> a in mem && a in mem' && mem'[a] == mem[a]
  }

  lemma {:induction false} FitsFrame(mem: Memory, mem': Memory, sh: Shape)
    requires Fits(mem, sh) && Agree(mem, mem', Own(sh))
    ensures Fits(mem', sh)
    decreases sh
  {
    if sh.Arr? || sh.Obj? { PartsFrame(mem, mem', sh.parts); }
  }

  lemma {:induction false} PartsFrame(mem: Memory, mem': Memory, parts: seq<Part>)
    requires FitsParts(mem, parts) && Agree(mem, mem', OwnParts(parts))
    ensures FitsParts(mem', parts)
    decreases parts
  {
    if parts != [] {
      PartsFrame(mem, mem', parts[..|parts| - 1]);
      FitsFrame(mem, mem', parts[|parts| - 1].v);
    }
  }

  lemma {:induction false} PartAt(mem: Memory, parts: seq<Part>, i: nat)
    requires FitsParts(mem, parts) && i < |parts|
    ensures FitsPart(mem, parts[i]) && OwnParts(parts[..i]) !! OwnPart(parts[i])
    ensures OwnParts(parts[..i + 1]) == OwnParts(parts[..i]) + OwnPart(parts[i]) && OwnParts(parts[..i + 1]) <= OwnParts(parts)
    ensures |Roots(parts)| == |Keys(parts)| == |parts| && Roots(parts)[i] == parts[i].v.b && Keys(parts)[i] == parts[i].key
    decreases parts
  {
    var n := |parts| - 1;
    var init := parts[..n];
    Lengths(init);
    if i < n {
      PartAt(mem, init, i);
      assert init[..i] == parts[..i] && init[..i + 1] == parts[..i + 1];
    } else {
      assert parts[..i + 1] == parts;
    }
  }

  lemma {:induction false} Lengths(parts: seq<Part>)
    ensures |Roots(parts)| == |Keys(parts)| == |parts| == |HeldItems(parts)| == |HeldMembers(parts)|
    decreases parts
  {
    if parts != [] { Lengths(parts[..|parts| - 1]); }
  }

  // ----- What changes besides -----

  /** Apart from the blocks `o` before and `o'` after, the two memories are the same. */
  ghost predicate Beside(mem: Memory, o: set<Addr>, mem': Memory, o': set<Addr>) {
    && (forall a :: a in mem && a !in o ==> a in mem' && a !in o' && mem'[a] == mem[a])
    && (forall a :: a in mem' && a !in o' ==> a in mem && a !in o)
  }

  lemma SameMap<K, V>(m: map<K, V>, m': map<K, V>)
    requires forall k :: k in m ==> k in m' && m'[k] == m[k]
    requires forall k :: k in m' ==> k in m
    ensures m == m'
  {
  }

  lemma Restored(mem: Memory, mem': Memory)
    requires Beside(mem, {}, mem', {})
    ensures mem == mem'
  {
    forall a: Addr ensures a in mem <==> a in mem' {
    }
    forall a: Addr | a in mem ensures mem'[a] == mem[a] {
    }
    SameMap(mem, mem');
  }

  lemma Disjoint<T>(o: set<T>, p: set<T>)
    requires forall x :: x in o ==> x !in p
    ensures o !! p
  {
  }

  /** A tree and a later one stand side by side. */
  lemma {:induction false} SideBySide(m0: Memory, m1: Memory, m2: Memory, o: set<Addr>, sh: Shape, p: set<Addr>)
    requires Fits(m1, sh) && o == Own(sh) && Beside(m0, {}, m1, o)
    requires p <= m2.Keys && Beside(m1, {}, m2, p)
    ensures Fits(m2, sh) && o !! p && Beside(m0, {}, m2, o + p)
  {
    OwnIsThere(m1, sh);
    FitsFrame(m1, m2, sh);
    forall a: Addr | a in o ensures a !in p {
    }
    Disjoint(o, p);
  }

  // ----- Arrays -----

  lemma {:induction false} ArrayGrows(mem: Memory, mem': Memory, sh: Shape, buf: Addr, cap: nat)
    requires Fits(mem, sh) && sh.Arr? && cap > 0
    requires buf != NULL && (buf in mem ==> buf == sh.buf)
    requires Beside(mem, {sh.b} + Block(sh.buf), mem', {sh.b, buf})
    requires sh.b in mem' && mem'[sh.b] == ArrayNode(buf, |sh.parts|, cap) && Buffer(mem', buf, cap, Roots(sh.parts))
    ensures var sh' := Arr(sh.b, buf, cap, sh.parts); Fits(mem', sh') && Beside(mem, Own(sh), mem', Own(sh'))
  {
    PartsAreThere(mem, sh.parts);
    PartsFrame(mem, mem', sh.parts);
  }

  lemma {:induction false} ArrayStores(mem: Memory, mem': Memory, sh: Shape, v: Shape)
    requires Fits(mem, sh) && sh.Arr? && Fits(mem, v) && Own(sh) !! Own(v) && sh.buf != NULL
    requires Beside(mem, {sh.b, sh.buf}, mem', {sh.b, sh.buf})
    requires sh.b in mem' && mem'[sh.b] == ArrayNode(sh.buf, |sh.parts| + 1, sh.cap)
    requires Buffer(mem', sh.buf, sh.cap, Roots(sh.parts) + [v.b])
    ensures var sh' := Arr(sh.b, sh.buf, sh.cap, sh.parts + [Part(NULL, [], v)]);
      Fits(mem', sh') && Own(sh') == Own(sh) + Own(v) && Beside(mem, Own(sh) + Own(v), mem', Own(sh'))
  {
    var parts' := sh.parts + [Part(NULL, [], v)];
    assert parts'[..|parts'| - 1] == sh.parts;
    assert OwnParts(parts') == OwnParts(sh.parts) + OwnPart(Part(NULL, [], v));
    assert OwnPart(Part(NULL, [], v)) == Own(v);
    OwnIsThere(mem, v);
    PartsAreThere(mem, sh.parts);
    PartsFrame(mem, mem', sh.parts);
    FitsFrame(mem, mem', v);
  }

  // ----- Objects -----

  lemma {:induction false} ObjectGrows(mem: Memory, mem': Memory, sh: Shape, keys: Addr, buf: Addr, cap: nat)
    requires Fits(mem, sh) && sh.Obj? && cap > 0
    requires keys != NULL && buf != NULL && keys != buf && (keys in mem ==> keys == sh.keys || keys == sh.buf)
    requires (buf in mem ==> buf == sh.buf || buf == sh.keys)
    requires Beside(mem, {sh.b} + Block(sh.keys) + Block(sh.buf), mem', {sh.b, keys, buf})
    requires sh.b in mem' && mem'[sh.b] == ObjectNode(keys, buf, |sh.parts|, cap)
    requires Buffer(mem', keys, cap, Keys(sh.parts)) && Buffer(mem', buf, cap, Roots(sh.parts))
    ensures var sh' := Obj(sh.b, keys, buf, cap, sh.parts); Fits(mem', sh') && Beside(mem, Own(sh), mem', Own(sh'))
  {
    PartsAreThere(mem, sh.parts);
    PartsFrame(mem, mem', sh.parts);
  }

  lemma {:induction false} ObjectStores(mem: Memory, mem': Memory, sh: Shape, key: Addr, name: string, v: Shape)
    requires Fits(mem, sh) && sh.Obj? && Fits(mem, v) && sh.buf != NULL && sh.keys != NULL
    requires key != NULL && key in mem && mem[key] == Chars(name) && key !in Own(v) && Own(sh) !! Own(v) + {key}
    requires Beside(mem, {sh.b, sh.keys, sh.buf}, mem', {sh.b, sh.keys, sh.buf})
    requires sh.b in mem' && mem'[sh.b] == ObjectNode(sh.keys, sh.buf, |sh.parts| + 1, sh.cap)
    requires Buffer(mem', sh.keys, sh.cap, Keys(sh.parts) + [key]) && Buffer(mem', sh.buf, sh.cap, Roots(sh.parts) + [v.b])
    ensures var sh' := Obj(sh.b, sh.keys, sh.buf, sh.cap, sh.parts + [Part(key, name, v)]); var o := Own(sh) + (Own(v) + {key});
      Fits(mem', sh') && Own(sh') == o && Beside(mem, o, mem', Own(sh'))
  {
    var parts' := sh.parts + [Part(key, name, v)];
    assert parts'[..|parts'| - 1] == sh.parts;
    OwnIsThere(mem, v);
    PartsAreThere(mem, sh.parts);
    PartsFrame(mem, mem', sh.parts);
    FitsFrame(mem, mem', v);
  }

  // ----- Single blocks and buffers -----

  lemma {:induction false} LeafFits(mem: Memory, a: Addr, c: Cell, t: Json)
    requires a != NULL && a !in mem && LeafCell(c, t)
    ensures Fits(mem[a := c], Leaf(a, t)) && Own(Leaf(a, t)) == {a} && Beside(mem, {}, mem[a := c], {a})
  {
  }

  /** A tree outside the blocks that changed is untouched. */
  lemma {:induction false} Untouched(m0: Memory, o: set<Addr>, m1: Memory, o': set<Addr>, v: Shape)
    requires Beside(m0, o, m1, o') && Fits(m0, v) && o !! Own(v)
    ensures Fits(m1, v) && o' !! Own(v)
  {
    OwnIsThere(m0, v);
    FitsFrame(m0, m1, v);
    forall a: Addr | a in o' ensures a !in Own(v) {
    }
    Disjoint(o', Own(v));
  }

  lemma {:induction false} ObjectCell(mem: Memory, sh: Shape)
    requires Fits(mem, sh) && sh.Obj?
    ensures sh.b in mem && mem[sh.b] == ObjectNode(sh.keys, sh.buf, |sh.parts|, sh.cap)
    ensures |sh.parts| <= sh.cap && (sh.cap > 0 ==> sh.keys != NULL && sh.buf != NULL)
  {
    Lengths(sh.parts);
  }

  /** A part that is not in the blocks that changed is untouched, and goes with them. */
  lemma {:induction false} PartUntouched(m0: Memory, o: set<Addr>, m1: Memory, o': set<Addr>, p: Part)
    requires Beside(m0, o, m1, o') && FitsPart(m0, p) && p.key != NULL && o !! Own(p.v) + {p.key}
    ensures FitsPart(m1, p) && o' !! Own(p.v) + {p.key}
    ensures Beside(m0, o + (Own(p.v) + {p.key}), m1, o' + (Own(p.v) + {p.key}))
  {
    Untouched(m0, o, m1, o', p.v);
    OwnIsThere(m0, p.v);
    hide Fits, Own;
    forall a: Addr | a in o' ensures a !in Own(p.v) + {p.key} {
    }
    Disjoint(o', Own(p.v) + {p.key});
  }

  lemma PartIs(mem: Memory, p: Part)
    requires FitsPart(mem, p) && p.key != NULL
    ensures Fits(mem, p.v) && p.key in mem && mem[p.key] == Chars(p.name) && p.key !in Own(p.v)
  {
  }

  lemma BesideSame(mem: Memory, o: set<Addr>)
    ensures Beside(mem, o, mem, o)
  {
  }

  lemma BufferGrows(m0: Memory, m1: Memory, buf: Addr, buf': Addr, cap: nat, cap': nat, addrs: seq<Addr>)
    requires Buffer(m0, buf, cap, addrs) && cap < cap' && buf' != NULL && buf' in m1 && m1[buf'].Slots? && |m1[buf'].a| == cap'
    requires buf != NULL && |m0[buf].a| <= cap' ==> m1[buf'].a[..|m0[buf].a|] == m0[buf].a
    ensures Buffer(m1, buf', cap', addrs)
  {
    if cap > 0 {
      assert m1[buf'].a[..|addrs|] == m0[buf].a[..|addrs|];
    }
  }

  lemma BufferStores(mem: Memory, mem': Memory, buf: Addr, cap: nat, addrs: seq<Addr>, x: Addr)
    requires Buffer(mem, buf, cap, addrs) && |addrs| < cap
    requires buf in mem' && mem'[buf] == Slots(mem[buf].a[|addrs| := x])
    ensures Buffer(mem', buf, cap, addrs + [x])
  {
    assert mem'[buf].a[..|addrs| + 1] == mem[buf].a[..|addrs|] + [x];
  }

  // ----- Releasing part by part -----

  lemma {:induction false} NextToFree(m0: Memory, m1: Memory, parts: seq<Part>, i: nat)
    requires FitsParts(m0, parts) && i < |parts| && Beside(m0, OwnParts(parts[..i]), m1, {})
    ensures FitsPart(m1, parts[i])
  {
    PartAt(m0, parts, i);
    OwnIsThere(m0, parts[i].v);
    FitsFrame(m0, m1, parts[i].v);
  }

  lemma {:induction false} OneMoreFreed(m0: Memory, m1: Memory, m2: Memory, parts: seq<Part>, i: nat)
    requires FitsParts(m0, parts) && i < |parts| && Beside(m0, OwnParts(parts[..i]), m1, {}) && Beside(m1, OwnPart(parts[i]), m2, {})
    ensures Beside(m0, OwnParts(parts[..i + 1]), m2, {}) && OwnParts(parts[..i + 1]) <= OwnParts(parts)
  {
    PartAt(m0, parts, i);
  }

  /** The root a buffer holds at `i`, while the buffer is still there. */
  lemma SlotHolds(m0: Memory, m1: Memory, o: set<Addr>, buf: Addr, cap: nat, addrs: seq<Addr>, i: nat)
    requires Buffer(m0, buf, cap, addrs) && i < |addrs| && Beside(m0, o, m1, {}) && buf !in o
    ensures buf in m1 && m1[buf].Slots? && i < |m1[buf].a| && m1[buf].a[i] == addrs[i]
  {
    assert m0[buf].a[..|addrs|][i] == m0[buf].a[i];
  }

  /** What `json_free` finds at the i-th member once those before it are gone. */
  lemma {:induction false} MemberToFree(m0: Memory, m1: Memory, sh: Shape, i: nat)
    requires Fits(m0, sh) && sh.Obj? && i < |sh.parts| && Beside(m0, OwnParts(sh.parts[..i]), m1, {})
    ensures sh.keys in m1 && m1[sh.keys].Slots? && i < |m1[sh.keys].a| && m1[sh.keys].a[i] == sh.parts[i].key
    ensures sh.buf in m1 && m1[sh.buf].Slots? && i < |m1[sh.buf].a| && m1[sh.buf].a[i] == sh.parts[i].v.b
    ensures sh.parts[i].key in m1 && Fits(m1 - {sh.parts[i].key}, sh.parts[i].v)
  {
    var p := sh.parts[i];
    PartsAreThere(m0, sh.parts);
    PartAt(m0, sh.parts, i);
    NextToFree(m0, m1, sh.parts, i);
    SlotHolds(m0, m1, OwnParts(sh.parts[..i]), sh.keys, sh.cap, Keys(sh.parts), i);
    SlotHolds(m0, m1, OwnParts(sh.parts[..i]), sh.buf, sh.cap, Roots(sh.parts), i);
    OwnIsThere(m1, p.v);
    FitsFrame(m1, m1 - {p.key}, p.v);
  }

  lemma {:induction false} MemberThere(mem: Memory, sh: Shape, i: nat)
    requires Fits(mem, sh) && sh.Obj? && i < |sh.parts|
    ensures sh.keys in mem && mem[sh.keys].Slots? && i < |mem[sh.keys].a| && mem[sh.keys].a[i] == sh.parts[i].key
    ensures sh.buf in mem && mem[sh.buf].Slots? && i < |mem[sh.buf].a| && mem[sh.buf].a[i] == sh.parts[i].v.b
    ensures sh.parts[i].key in mem && mem[sh.parts[i].key] == Chars(sh.parts[i].name)
    ensures sh.parts[i].v.b != NULL && Fits(mem, sh.parts[i].v)
  {
    PartsAreThere(mem, sh.parts);
    PartAt(mem, sh.parts, i);
    SlotHolds(mem, mem, {}, sh.keys, sh.cap, Keys(sh.parts), i);
    SlotHolds(mem, mem, {}, sh.buf, sh.cap, Roots(sh.parts), i);
  }

  lemma {:induction false} MemberFreed(m0: Memory, m1: Memory, m2: Memory, sh: Shape, i: nat)
    requires Fits(m0, sh) && sh.Obj? && i < |sh.parts| && Beside(m0, OwnParts(sh.parts[..i]), m1, {})
    requires sh.parts[i].key in m1 && Beside(m1 - {sh.parts[i].key}, Own(sh.parts[i].v), m2, {})
    ensures Beside(m0, OwnParts(sh.parts[..i + 1]), m2, {})
  {
    NextToFree(m0, m1, sh.parts, i);
    OneMoreFreed(m0, m1, m2, sh.parts, i);
  }

  lemma BesideTrans(m0: Memory, o: set<Addr>, m1: Memory, o': set<Addr>, m2: Memory, o'': set<Addr>)
    requires Beside(m0, o, m1, o') && Beside(m1, o', m2, o'')
    ensures Beside(m0, o, m2, o'')
  {
  }

  lemma {:induction false} HeldAppend(parts: seq<Part>, x: Part)
    ensures HeldItems(parts + [x]) == HeldItems(parts) + [Held(x.v)]
    ensures HeldMembers(parts + [x]) == HeldMembers(parts) + [Member(x.name, Held(x.v))]
  {
    assert (parts + [x])[..|parts|] == parts;
  }

  lemma {:induction false} MembersAt(parts: seq<Part>)
    ensures |HeldMembers(parts)| == |parts|
    ensures forall j :: 0 <= j < |parts| ==> HeldMembers(parts)[j] == Member(parts[j].name, Held(parts[j].v))
    decreases parts
  {
    if parts != [] { MembersAt(parts[..|parts| - 1]); }
  }
}
