/**
 The scanner that finds elements carrying `data-goradd` in a page: one pass over the token stream
 with a stack of open tags.  The tokenizer itself is taken as given: its tokens tile the input, so a
 token is known by its kind, its name, its attributes and its length in bytes.
 */
module Scanner {
  import opened Basics

  datatype Attribute = Attribute(key: string, val: string)

  datatype Token =
    | StartTag(tag: string, attrs: seq<Attribute>, size: nat)
    | SelfClosingTag(tag: string, attrs: seq<Attribute>, size: nat)
    | EndTag(tag: string, size: nat)
    | Other(size: nat) // text, comment, doctype

  datatype GoraddElement = GoraddElement(tag: string, id: string, start: nat, end: nat)

  datatype StackElem = StackElem(tag: string, startPos: nat, hasGoradd: bool, id: string)

  datatype ScanState = ScanState(offset: nat, stack: seq<StackElem>, result: seq<GoraddElement>)

  const VOID_ELEMENTS: set<string> :=
    {"area", "base", "br", "col", "embed", "hr", "img", "input", "link", "meta", "param", "source", "track", "wbr"}

  const START := ScanState(0, [], [])

  // ---------------------------------------------------------------- what the scan computes

  predicate HasGoradd(attrs: seq<Attribute>) {
    exists a | a in attrs :: a.key == "data-goradd"
  }

  /** The last `id` attribute wins. */
  function IdOf(attrs: seq<Attribute>): string {
    if attrs == [] then "" else
      var a := attrs[|attrs| - 1];
      if a.key == "id" then a.val else IdOf(attrs[..|attrs| - 1])
  }

  predicate EndsItself(t: Token) {
    t.SelfClosingTag? || (t.StartTag? && t.tag in VOID_ELEMENTS)
  }

  /** The void elements of section 13.1.2 of the WHATWG HTML standard. */
  lemma VoidElementsAre(tag: string)
    ensures tag in VOID_ELEMENTS <==>
            || tag == "area" || tag == "base" || tag == "br" || tag == "col" || tag == "embed" || tag == "hr"
            || tag == "img" || tag == "input" || tag == "link" || tag == "meta" || tag == "param" || tag == "source"
            || tag == "track" || tag == "wbr"
  {
  }

  /** The innermost open element of that name, or -1. */
  function Innermost(stack: seq<StackElem>, tag: string): (i: int)
    ensures -1 <= i < |stack|
  {
    if stack == [] then -1
    else if stack[|stack| - 1].tag == tag then |stack| - 1
    else Innermost(stack[..|stack| - 1], tag)
  }

  function Report(tag: string, id: string, start: nat, end: nat, wanted: bool): seq<GoraddElement> {
    if wanted then [GoraddElement(tag, id, start, end)] else []
  }

  function ScanToken(s: ScanState, t: Token): ScanState {
    var end := s.offset + t.size;
    match t
    case Other(_) => s.(offset := end)
    case EndTag(tag, _) =>
      var i := Innermost(s.stack, tag);
      if i < 0 then s.(offset := end) else
        var e := s.stack[i];
        ScanState(end, s.stack[..i], s.result + Report(e.tag, e.id, e.startPos, end, e.hasGoradd))
    case _ =>
      if EndsItself(t)
      then ScanState(end, s.stack, s.result + Report(t.tag, IdOf(t.attrs), s.offset, end, HasGoradd(t.attrs)))
      else ScanState(end, s.stack + [StackElem(t.tag, s.offset, HasGoradd(t.attrs), IdOf(t.attrs))], s.result)
  }

  function Scan(s: ScanState, ts: seq<Token>): ScanState
    decreases |ts|
  {
    if ts == [] then s else Scan(ScanToken(s, ts[0]), ts[1..])
  }

  // ---------------------------------------------------------------- reading a tag by position

  ghost predicate IsMarked(attrs: seq<Attribute>) {
    exists i :: 0 <= i < |attrs| && attrs[i].key == "data-goradd"
  }

  /** Position `i` has the last attribute whose key is "id". */
  ghost predicate LastIdAt(attrs: seq<Attribute>, i: int) {
    0 <= i < |attrs| && attrs[i].key == "id" && forall j | i < j < |attrs| :: attrs[j].key != "id"
  }

  /** The value of the last "id" attribute, or empty if there is none. */
  ghost function ReadId(attrs: seq<Attribute>): string {
    if exists i :: LastIdAt(attrs, i) then
      var i :| LastIdAt(attrs, i);
      attrs[i].val
    else ""
  }

  lemma MarkRead(attrs: seq<Attribute>)
    ensures HasGoradd(attrs) <==> IsMarked(attrs)
  {
    if i :| 0 <= i < |attrs| && attrs[i].key == "data-goradd" { assert attrs[i] in attrs; }
  }

  /** The scan reads a tag as its attributes say by position. */
  lemma TagRead(attrs: seq<Attribute>)
    ensures HasGoradd(attrs) == IsMarked(attrs) && IdOf(attrs) == ReadId(attrs)
  {
    MarkRead(attrs);
    IdRead(attrs);
  }

  lemma LastIdSnoc(init: seq<Attribute>, a: Attribute, i: int)
    ensures LastIdAt(init + [a], i) <==> if a.key == "id" then i == |init| else LastIdAt(init, i)
  {
    var attrs := init + [a];
    assert forall j | 0 <= j < |init| :: attrs[j] == init[j];
    assert attrs[|init|] == a;
    if LastIdAt(attrs, i) && i < |init| {
      assert attrs[|init|].key != "id";
      forall j | i < j < |init| ensures init[j].key != "id" { assert attrs[j].key != "id"; }
    }
  }

  /** There is at most one last position. */
  lemma ReadIdIs(attrs: seq<Attribute>, i: int)
    requires LastIdAt(attrs, i)
    ensures ReadId(attrs) == attrs[i].val
  {
    var k :| LastIdAt(attrs, k) && ReadId(attrs) == attrs[k].val;
    assert LastIdAt(attrs, k);
  }

  lemma ReadIdSnoc(init: seq<Attribute>, a: Attribute)
    ensures ReadId(init + [a]) == if a.key == "id" then a.val else ReadId(init)
  {
    if a.key == "id" {
      LastIdSnoc(init, a, |init|);
      ReadIdIs(init + [a], |init|);
    } else if i :| LastIdAt(init, i) {
      LastIdSnoc(init, a, i);
      ReadIdIs(init, i);
      ReadIdIs(init + [a], i);
    } else if i :| LastIdAt(init + [a], i) {
      LastIdSnoc(init, a, i);
    }
  }

  lemma {:induction false} IdRead(attrs: seq<Attribute>)
    ensures IdOf(attrs) == ReadId(attrs)
  {
    if attrs != [] {
      var init, a := attrs[..|attrs| - 1], attrs[|attrs| - 1];
      assert attrs == init + [a];
      IdRead(init);
      ReadIdSnoc(init, a);
    }
  }

  /** The id read from a tag is that of its last "id" attribute, and empty exactly as far as there is none or
      that one is. */
  lemma IdByPosition(attrs: seq<Attribute>)
    ensures forall i | LastIdAt(attrs, i) :: IdOf(attrs) == attrs[i].val
    ensures (forall i | 0 <= i < |attrs| :: attrs[i].key != "id") ==> IdOf(attrs) == ""
  {
    IdRead(attrs);
    forall i | LastIdAt(attrs, i) ensures IdOf(attrs) == attrs[i].val { ReadIdIs(attrs, i); }
  }

  // ---------------------------------------------------------------- the program

  method InspectAttributes(attrs: seq<Attribute>) returns (hasGoradd: bool, idVal: string)
    ensures hasGoradd <==> HasGoradd(attrs)
    ensures idVal == IdOf(attrs)
    ensures hasGoradd <==> exists i :: 0 <= i < |attrs| && attrs[i].key == "data-goradd"
    ensures forall i | LastIdAt(attrs, i) :: idVal == attrs[i].val
    ensures (forall i | 0 <= i < |attrs| :: attrs[i].key != "id") ==> idVal == ""
  {
    hasGoradd, idVal := ReadAttributes(attrs);
    MarkRead(attrs);
    IdByPosition(attrs);
  }

  method ReadAttributes(attrs: seq<Attribute>) returns (hasGoradd: bool, idVal: string)
    ensures hasGoradd <==> HasGoradd(attrs)
    ensures idVal == IdOf(attrs)
  {
    hasGoradd, idVal := false, "";
    for i := 0 to |attrs|
      invariant hasGoradd <==> HasGoradd(attrs[..i])
      invariant idVal == IdOf(attrs[..i])
    {
      assert attrs[..i + 1] == attrs[..i] + [attrs[i]];
      if attrs[i].key == "data-goradd" {
        hasGoradd := true;
      }
      if attrs[i].key == "id" {
        idVal := attrs[i].val;
      }
    }
    assert attrs[..|attrs|] == attrs;
  }

  method FindOpen(stack: seq<StackElem>, tag: string) returns (i: int)
    ensures i == Innermost(stack, tag)
    ensures -1 <= i < |stack| && (i >= 0 ==> stack[i].tag == tag)
    ensures forall k | i < k < |stack| :: stack[k].tag != tag
  {
    i := |stack| - 1;
    assert stack[..i + 1] == stack;
    while i >= 0 && stack[i].tag != tag
      invariant -1 <= i < |stack|
      invariant Innermost(stack, tag) == Innermost(stack[..i + 1], tag)
      invariant forall k | i < k < |stack| :: stack[k].tag != tag
    {
      assert stack[..i + 1][..i] == stack[..i];
      i := i - 1;
    }
  }

  method ReadTag(t: Token, offset: nat, stack: seq<StackElem>, result: seq<GoraddElement>)
    returns (newStack: seq<StackElem>, newResult: seq<GoraddElement>)
    requires t.StartTag? || t.SelfClosingTag?
    ensures ScanState(offset + t.size, newStack, newResult) == ScanToken(ScanState(offset, stack, result), t)
  {
    newStack, newResult := stack, result;
    var hasGoradd, idVal := InspectAttributes(t.attrs);
    var isSelfClosing := t.SelfClosingTag? || t.tag in VOID_ELEMENTS;
    if isSelfClosing {
      if hasGoradd {
        newResult := result + [GoraddElement(t.tag, idVal, offset, offset + t.size)];
      }
    } else {
      newStack := stack + [StackElem(t.tag, offset, hasGoradd, idVal)];
    }
  }

  method ReadEndTag(t: Token, offset: nat, stack: seq<StackElem>, result: seq<GoraddElement>)
    returns (newStack: seq<StackElem>, newResult: seq<GoraddElement>)
    requires t.EndTag?
    ensures ScanState(offset + t.size, newStack, newResult) == ScanToken(ScanState(offset, stack, result), t)
  {
    newStack, newResult := stack, result;
    var i := FindOpen(stack, t.tag);
    if i >= 0 {
      var elem := stack[i];
      newStack := stack[..i];
      if elem.hasGoradd {
        newResult := result + [GoraddElement(elem.tag, elem.id, elem.startPos, offset + t.size)];
      }
    }
  }

  /** Scans the tokens up to the end of the input, or up to a tokenizer error, which is passed on. */
  method FindGoraddElements(tokens: seq<Token>, failed: bool) returns (r: Option<seq<GoraddElement>>)
    ensures r == if failed then None else Some(Scan(START, tokens).result)
  {
    var offset: nat := 0;
    var stack: seq<StackElem> := [];
    var result: seq<GoraddElement> := [];
    for n := 0 to |tokens|
      invariant Scan(START, tokens) == Scan(ScanState(offset, stack, result), tokens[n..])
    {
      var t := tokens[n];
      assert tokens[n..][1..] == tokens[n + 1..];
      if t.StartTag? || t.SelfClosingTag? {
        stack, result := ReadTag(t, offset, stack, result);
      } else if t.EndTag? {
        stack, result := ReadEndTag(t, offset, stack, result);
      }
      offset := offset + t.size;
    }
    r := if failed then None else Some(result);
  }

  // ---------------------------------------------------------------- scanning a printed tree

  /** A well-formed page as a forest: elements with an end tag, single tags, and text. */
  datatype Node =
    | Element(tag: string, attrs: seq<Attribute>, openSize: nat, children: seq<Node>, closeSize: nat)
    | Single(tag: string, attrs: seq<Attribute>, size: nat, slash: bool)
    | Text(size: nat)

  predicate WellFormed(n: Node)
    decreases n, 1
  {
    match n
    case Element(tag, _, _, children, _) => tag !in VOID_ELEMENTS && AllWellFormed(children)
    case Single(tag, _, _, slash) => slash || tag in VOID_ELEMENTS
    case Text(_) => true
  }

  predicate AllWellFormed(ns: seq<Node>)
    decreases ns, 0
  {
    ns == [] || (WellFormed(ns[0]) && AllWellFormed(ns[1..]))
  }

  function Print(n: Node): seq<Token>
    decreases n, 1
  {
    match n
    case Element(tag, attrs, openSize, children, closeSize) =>
      [StartTag(tag, attrs, openSize)] + (PrintAll(children) + [EndTag(tag, closeSize)])
    case Single(tag, attrs, size, slash) =>
      [if slash then SelfClosingTag(tag, attrs, size) else StartTag(tag, attrs, size)]
    case Text(size) => [Other(size)]
  }

  function PrintAll(ns: seq<Node>): seq<Token>
    decreases ns, 0
  {
    if ns == [] then [] else Print(ns[0]) + PrintAll(ns[1..])
  }

  function Width(n: Node): nat
    decreases n, 1
  {
    match n
    case Element(_, _, openSize, children, closeSize) => openSize + WidthAll(children) + closeSize
    case Single(_, _, size, _) => size
    case Text(size) => size
  }

  function WidthAll(ns: seq<Node>): nat
    decreases ns, 0
  {
    if ns == [] then 0 else Width(ns[0]) + WidthAll(ns[1..])
  }

  /** The marked elements of a tree printed at `offset`: inner ones before the element around them. */
  ghost function Marked(n: Node, offset: nat): seq<GoraddElement>
    decreases n, 1
  {
    match n
    case Element(tag, attrs, openSize, children, _) =>
      MarkedAll(children, offset + openSize)
      + Report(tag, ReadId(attrs), offset, offset + Width(n), IsMarked(attrs))
    case Single(tag, attrs, size, _) => Report(tag, ReadId(attrs), offset, offset + size, IsMarked(attrs))
    case Text(_) => []
  }

  ghost function MarkedAll(ns: seq<Node>, offset: nat): seq<GoraddElement>
    decreases ns, 0
  {
    if ns == [] then [] else Marked(ns[0], offset) + MarkedAll(ns[1..], offset + Width(ns[0]))
  }

  lemma {:induction false} ScanConcat(s: ScanState, a: seq<Token>, b: seq<Token>)
    ensures Scan(s, a + b) == Scan(Scan(s, a), b)
    decreases |a|
  {
    if a == [] {
      assert a + b == b;
    } else {
      assert (a + b)[1..] == a[1..] + b;
      ScanConcat(ScanToken(s, a[0]), a[1..], b);
    }
  }

  lemma ScanOne(s: ScanState, t: Token)
    ensures Scan(s, [t]) == ScanToken(s, t)
  {
    assert [t][1..] == [];
  }

  /** An end tag right after its element's contents closes that element. */
  lemma CloseTop(s: ScanState, e: StackElem, closeSize: nat)
    requires s.stack != [] && s.stack[|s.stack| - 1] == e
    ensures ScanToken(s, EndTag(e.tag, closeSize)) ==
            ScanState(s.offset + closeSize, s.stack[..|s.stack| - 1],
                      s.result + Report(e.tag, e.id, e.startPos, s.offset + closeSize, e.hasGoradd))
  {
  }

  lemma ScanTwo(s: ScanState, a: seq<Token>, u: ScanState, b: seq<Token>, v: ScanState)
    requires Scan(s, a) == u && Scan(u, b) == v
    ensures Scan(s, a + b) == v
  {
    ScanConcat(s, a, b);
  }

  /** A tag, some tokens and another tag scan in three stages. */
  lemma ScanAround(s: ScanState, open: Token, mid: seq<Token>, close: Token)
    ensures Scan(s, [open] + (mid + [close])) == ScanToken(Scan(ScanToken(s, open), mid), close)
  {
    ScanConcat(s, [open], mid + [close]);
    ScanOne(s, open);
    ScanConcat(ScanToken(s, open), mid, [close]);
    ScanOne(Scan(ScanToken(s, open), mid), close);
  }

  lemma ScanText(s: ScanState, size: nat)
    ensures Scan(s, [Other(size)]) == ScanState(s.offset + size, s.stack, s.result + [])
  {
    ScanOne(s, Other(size));
  }

  lemma ScanSingle(s: ScanState, t: Token)
    requires EndsItself(t)
    ensures Scan(s, [t]) ==
            ScanState(s.offset + t.size, s.stack,
                      s.result + Report(t.tag, IdOf(t.attrs), s.offset, s.offset + t.size, HasGoradd(t.attrs)))
  {
    ScanOne(s, t);
  }

  /** The end tag of an element whose contents have been scanned. */
  lemma ScanClose(s: ScanState, e: StackElem, inner: seq<GoraddElement>, offset: nat, closeSize: nat, end: nat)
    requires end == offset + closeSize
    ensures ScanToken(ScanState(offset, s.stack + [e], s.result + inner), EndTag(e.tag, closeSize)) ==
            ScanState(end, s.stack, s.result + (inner + Report(e.tag, e.id, e.startPos, end, e.hasGoradd)))
  {
    CloseTop(ScanState(offset, s.stack + [e], s.result + inner), e, closeSize);
    PopLast(s.stack, e);
    Regroup(s.result, inner, Report(e.tag, e.id, e.startPos, end, e.hasGoradd));
  }

  lemma PopLast(stack: seq<StackElem>, e: StackElem)
    ensures (stack + [e])[..|stack|] == stack
  {
  }

  lemma ScanOpen(s: ScanState, tag: string, attrs: seq<Attribute>, size: nat)
    requires tag !in VOID_ELEMENTS
    ensures ScanToken(s, StartTag(tag, attrs, size)) ==
            ScanState(s.offset + size, s.stack + [StackElem(tag, s.offset, HasGoradd(attrs), IdOf(attrs))], s.result)
  {
  }

  /** The three stages of an element, given what each of them scans to. */
  lemma ScanElement(s: ScanState, open: Token, inside: ScanState, mid: seq<Token>, u: ScanState, close: Token, v: ScanState)
    requires ScanToken(s, open) == inside && Scan(inside, mid) == u && ScanToken(u, close) == v
    ensures Scan(s, [open] + (mid + [close])) == v
  {
    ScanAround(s, open, mid, close);
  }

  /** The same for a start tag, some tokens and the end tag of its name. */
  lemma ScanTagged(s: ScanState, e: StackElem, attrs: seq<Attribute>, openSize: nat, mid: seq<Token>, closeSize: nat,
                   inner: seq<GoraddElement>, offset: nat, end: nat)
    requires e == StackElem(e.tag, s.offset, HasGoradd(attrs), IdOf(attrs)) && e.tag !in VOID_ELEMENTS
    requires Scan(ScanState(s.offset + openSize, s.stack + [e], s.result), mid) ==
             ScanState(offset, s.stack + [e], s.result + inner)
    requires end == offset + closeSize
    ensures Scan(s, [StartTag(e.tag, attrs, openSize)] + (mid + [EndTag(e.tag, closeSize)])) ==
            ScanState(end, s.stack, s.result + (inner + Report(e.tag, e.id, e.startPos, end, e.hasGoradd)))
  {
    var reports := s.result + (inner + Report(e.tag, e.id, e.startPos, end, e.hasGoradd));
    ScanOpen(s, e.tag, attrs, openSize);
    ScanClose(s, e, inner, offset, closeSize, end);
    ScanElement(s, StartTag(e.tag, attrs, openSize), ScanState(s.offset + openSize, s.stack + [e], s.result), mid,
                ScanState(offset, s.stack + [e], s.result + inner), EndTag(e.tag, closeSize),
                ScanState(end, s.stack, reports));
  }

  lemma ScanPrintSingle(s: ScanState, n: Node)
    requires WellFormed(n) && n.Single?
    ensures Scan(s, Print(n)) == ScanState(s.offset + Width(n), s.stack, s.result + Marked(n, s.offset))
  {
    TagRead(n.attrs);
    ScanSingle(s, if n.slash then SelfClosingTag(n.tag, n.attrs, n.size) else StartTag(n.tag, n.attrs, n.size));
  }

  lemma MarkedElement(n: Node, offset: nat)
    requires n.Element?
    ensures Marked(n, offset) ==
            MarkedAll(n.children, offset + n.openSize)
            + Report(n.tag, IdOf(n.attrs), offset, offset + Width(n), HasGoradd(n.attrs))
  {
    TagRead(n.attrs);
  }

  /** Scanning what a tree prints, in any context, reports its marked elements and leaves the stack as
      it was. */
  lemma {:induction false} ScanPrint(s: ScanState, n: Node)
    requires WellFormed(n)
    ensures Scan(s, Print(n)) == ScanState(s.offset + Width(n), s.stack, s.result + Marked(n, s.offset))
    decreases n, 1
  {
    match n
    case Element(tag, attrs, openSize, children, closeSize) =>
      var e := StackElem(tag, s.offset, HasGoradd(attrs), IdOf(attrs));
      ScanPrintAll(ScanState(s.offset + openSize, s.stack + [e], s.result), children);
      MarkedElement(n, s.offset);
      ScanTagged(s, e, attrs, openSize, PrintAll(children), closeSize, MarkedAll(children, s.offset + openSize),
                 s.offset + openSize + WidthAll(children), s.offset + Width(n));
    case Single(_, _, _, _) =>
      ScanPrintSingle(s, n);
    case Text(size) =>
      ScanText(s, size);
  }

  lemma {:induction false} ScanPrintAll(s: ScanState, ns: seq<Node>)
    requires AllWellFormed(ns)
    ensures Scan(s, PrintAll(ns)) == ScanState(s.offset + WidthAll(ns), s.stack, s.result + MarkedAll(ns, s.offset))
    decreases ns, 0
  {
    if ns == [] {
      assert s.result + [] == s.result;
    } else {
      var n, rest := ns[0], ns[1..];
      var first, later := Marked(n, s.offset), MarkedAll(rest, s.offset + Width(n));
      var here := ScanState(s.offset + Width(n), s.stack, s.result + first);
      ScanPrint(s, n);
      ScanPrintAll(here, rest);
      Regroup(s.result, first, later);
      ScanTwo(s, Print(n), here, PrintAll(rest),
              ScanState(here.offset + WidthAll(rest), s.stack, s.result + (first + later)));
    }
  }

  // ---------------------------------------------------------------- any token stream at all

  predicate AllNonEmpty(ts: seq<Token>) {
    forall t | t in ts :: t.size > 0
  }

  function TotalSize(ts: seq<Token>): nat {
    if ts == [] then 0 else ts[0].size + TotalSize(ts[1..])
  }

  /** Two reports, the earlier first: side by side, or the later around the earlier. */
  predicate Apart(a: GoraddElement, b: GoraddElement) {
    a.end <= b.start || (b.start < a.start && a.end < b.end)
  }

  ghost predicate Nested(rs: seq<GoraddElement>, limit: nat) {
    && (forall i | 0 <= i < |rs| :: rs[i].start < rs[i].end <= limit)
    && (forall i, j | 0 <= i < j < |rs| :: rs[i].end < rs[j].end && rs[i].start != rs[j].start && Apart(rs[i], rs[j]))
  }

  /** An element still open started before this report did, or after it ended. */
  predicate Clear(e: StackElem, r: GoraddElement) {
    e.startPos < r.start || r.end <= e.startPos
  }

  ghost predicate Inv(s: ScanState) {
    && Nested(s.result, s.offset)
    && (forall i | 0 <= i < |s.stack| :: s.stack[i].startPos < s.offset)
    && (forall i, j | 0 <= i < j < |s.stack| :: s.stack[i].startPos < s.stack[j].startPos)
    && (forall i, k | 0 <= i < |s.stack| && 0 <= k < |s.result| :: Clear(s.stack[i], s.result[k]))
  }

  lemma ReportKeepsNested(rs: seq<GoraddElement>, limit: nat, r: GoraddElement)
    requires Nested(rs, limit) && r.start < r.end && limit < r.end
    requires forall k | 0 <= k < |rs| :: r.start < rs[k].start || rs[k].end <= r.start
    ensures Nested(rs + [r], r.end)
  {
  }

  lemma LeafKeepsInv(s: ScanState, t: Token)
    requires Inv(s) && t.size > 0 && (t.StartTag? || t.SelfClosingTag?)
    ensures Inv(ScanToken(s, t))
  {
    if EndsItself(t) && HasGoradd(t.attrs) {
      var r := GoraddElement(t.tag, IdOf(t.attrs), s.offset, s.offset + t.size);
      ReportKeepsNested(s.result, s.offset, r);
      assert ScanToken(s, t) == ScanState(r.end, s.stack, s.result + [r]);
    }
  }

  lemma CloseKeepsInv(s: ScanState, t: Token)
    requires Inv(s) && t.size > 0 && t.EndTag?
    ensures Inv(ScanToken(s, t))
  {
    var i := Innermost(s.stack, t.tag);
    if i >= 0 {
      var e := s.stack[i];
      var r := GoraddElement(e.tag, e.id, e.startPos, s.offset + t.size);
      assert forall k | 0 <= k < |s.result| :: Clear(e, s.result[k]);
      ReportKeepsNested(s.result, s.offset, r);
      PopKeepsInv(s, i, r);
      assert ScanToken(s, t) == ScanState(r.end, s.stack[..i], s.result + if e.hasGoradd then [r] else []);
    }
  }

  /** The elements below a popped one started before it. */
  lemma PopKeepsInv(s: ScanState, i: nat, r: GoraddElement)
    requires Inv(s) && i < |s.stack| && r.start == s.stack[i].startPos && r.end > s.offset
    requires Nested(s.result + [r], r.end)
    ensures Inv(ScanState(r.end, s.stack[..i], s.result + [r]))
    ensures Inv(ScanState(r.end, s.stack[..i], s.result + []))
  {
    assert s.result + [] == s.result;
    assert forall k | 0 <= k < |s.result| :: (s.result + [r])[k] == s.result[k];
  }

  lemma TokenKeepsInv(s: ScanState, t: Token)
    requires Inv(s) && t.size > 0
    ensures Inv(ScanToken(s, t))
  {
    match t
    case Other(_) =>
    case EndTag(_, _) => CloseKeepsInv(s, t);
    case _ => LeafKeepsInv(s, t);
  }

  lemma {:induction false} ScanKeepsInv(s: ScanState, ts: seq<Token>)
    requires Inv(s) && AllNonEmpty(ts)
    ensures Inv(Scan(s, ts)) && Scan(s, ts).offset == s.offset + TotalSize(ts)
    decreases |ts|
  {
    if ts != [] {
      TokenKeepsInv(s, ts[0]);
      ScanKeepsInv(ScanToken(s, ts[0]), ts[1..]);
    }
  }

  /** However malformed the input, reported spans lie inside it, end in strictly increasing order, start
      at different places, and never partially overlap. */
  lemma SpansNest(ts: seq<Token>)
    requires AllNonEmpty(ts)
    ensures var rs := Scan(START, ts).result;
      && (forall i | 0 <= i < |rs| :: 0 <= rs[i].start < rs[i].end <= TotalSize(ts))
      && (forall i, j | 0 <= i < j < |rs| ::
            && rs[i].end < rs[j].end && rs[i].start != rs[j].start
            && (rs[i].end <= rs[j].start || (rs[j].start < rs[i].start && rs[i].end < rs[j].end)))
  {
    ScanKeepsInv(START, ts);
  }

  // ---------------------------------------------------------------- which tags are reported

  predicate IsTag(t: Token) {
    t.StartTag? || t.SelfClosingTag?
  }

  predicate Opens(t: Token) {
    IsTag(t) && !EndsItself(t)
  }

  /** A token stream, and for each `n` how many elements are open and how many bytes have passed after its
      first `n` tokens. */
  datatype Page = Page(ts: seq<Token>, depths: seq<nat>, sizes: seq<nat>)

  predicate Measured(g: Page) {
    |g.depths| == |g.ts| + 1 && |g.sizes| == |g.ts| + 1
  }

  function PageOf(ts: seq<Token>): (g: Page)
    ensures Measured(g)
  {
    Page(ts, seq(|ts| + 1, n requires 0 <= n <= |ts| => |Scan(START, ts[..n]).stack|),
         seq(|ts| + 1, n requires 0 <= n <= |ts| => TotalSize(ts[..n])))
  }

  /** Token `p` opens an element that none of the tokens up to the first `n` pops. */
  ghost predicate OpenUntil(g: Page, p: int, n: int)
    requires Measured(g)
  {
    0 <= p < n <= |g.ts| && Opens(g.ts[p]) && forall j | p < j <= n :: g.depths[j] > g.depths[p]
  }

  /** Token `q` is the first that pops the element opened by token `p`, and it is that element's end tag:
      it pops nothing outside it. */
  ghost predicate Closes(g: Page, p: int, q: int)
    requires Measured(g)
  {
    && OpenUntil(g, p, q) && q < |g.ts|
    && g.ts[q].EndTag? && g.ts[q].tag == g.ts[p].tag && g.depths[q + 1] == g.depths[p]
  }

  /** The report of tag `p`, if it is marked, that ends with token `q`. */
  ghost predicate Spans(g: Page, r: GoraddElement, p: int, q: int)
    requires Measured(g)
  {
    && 0 <= p <= q < |g.ts| && IsTag(g.ts[p])
    && var t := g.ts[p];
       IsMarked(t.attrs) && r == GoraddElement(t.tag, ReadId(t.attrs), g.sizes[p], g.sizes[q + 1])
  }

  /** The report of the marked tag `p`, which ends itself or is closed by token `q`. */
  ghost predicate Reports(g: Page, r: GoraddElement, p: int, q: int)
    requires Measured(g)
  {
    Spans(g, r, p, q) && ((p == q && EndsItself(g.ts[p])) || Closes(g, p, q))
  }

  ghost predicate Reported(g: Page, r: GoraddElement)
    requires Measured(g)
  {
    exists p, q :: Reports(g, r, p, q)
  }

  /** The element at this depth of the stack is the one that token `p` opened. */
  ghost predicate Holds(g: Page, stack: seq<StackElem>, p: int, i: int)
    requires Measured(g)
  {
    && OpenUntil(g, p, |g.ts|) && g.depths[p] == i && 0 <= i < |stack|
    && var t := g.ts[p];
       stack[i] == StackElem(t.tag, g.sizes[p], HasGoradd(t.attrs), IdOf(t.attrs))
  }

  ghost predicate Held(g: Page, stack: seq<StackElem>, i: int)
    requires Measured(g)
  {
    exists p :: Holds(g, stack, p, i)
  }

  /** The stack holds exactly the elements still open, each at the depth at which it was opened. */
  ghost predicate StackIsOpen(g: Page, stack: seq<StackElem>)
    requires Measured(g)
  {
    && (forall p | OpenUntil(g, p, |g.ts|) :: Holds(g, stack, p, g.depths[p]))
    && (forall i | 0 <= i < |stack| :: Held(g, stack, i))
  }

  ghost predicate Follows(g: Page, s: ScanState) {
    && Measured(g) && g.depths[|g.ts|] == |s.stack| && g.sizes[|g.ts|] == s.offset
    && StackIsOpen(g, s.stack)
    && (forall r :: r in s.result <==> Reported(g, r))
  }

  /** The page with one token more. */
  function Extended(g: Page, t: Token, depth: nat, size: nat): (h: Page)
    requires Measured(g)
    ensures Measured(h)
  {
    Page(g.ts + [t], g.depths + [depth], g.sizes + [size])
  }

  lemma OpenStays(g: Page, h: Page, t: Token, depth: nat, size: nat, p: int, n: int)
    requires Measured(g) && h == Extended(g, t, depth, size) && n <= |g.ts|
    ensures OpenUntil(h, p, n) <==> OpenUntil(g, p, n)
  {
    if 0 <= p < n {
      assert h.ts[p] == g.ts[p];
      assert forall j | p <= j <= n :: h.depths[j] == g.depths[j];
      if OpenUntil(h, p, n) {
        forall j | p < j <= n ensures g.depths[j] > g.depths[p] { assert h.depths[j] > h.depths[p]; }
      }
    }
  }

  /** An element open before the last token is open after it exactly if the stack is still that high. */
  lemma OpenOneMore(g: Page, p: int, n: int)
    requires Measured(g) && 0 <= p < n < |g.ts|
    ensures OpenUntil(g, p, n + 1) <==> OpenUntil(g, p, n) && g.depths[n + 1] > g.depths[p]
  {
    if OpenUntil(g, p, n) && g.depths[n + 1] > g.depths[p] {
      forall j | p < j <= n + 1 ensures g.depths[j] > g.depths[p] { }
    }
  }

  lemma ReportsStay(g: Page, h: Page, t: Token, depth: nat, size: nat, r: GoraddElement, p: int, q: int)
    requires Measured(g) && h == Extended(g, t, depth, size) && q < |g.ts|
    ensures Reports(h, r, p, q) <==> Reports(g, r, p, q)
  {
    OpenStays(g, h, t, depth, size, p, q);
  }

  lemma InnermostHasTag(stack: seq<StackElem>, tag: string)
    ensures var i := Innermost(stack, tag);
      && (i >= 0 ==> stack[i].tag == tag)
      && (forall k | i < k < |stack| :: stack[k].tag != tag)
  {
  }

  lemma HoldsStays(g: Page, h: Page, t: Token, depth: nat, size: nat, s: seq<StackElem>, u: seq<StackElem>, p: int, i: int)
    requires Measured(g) && h == Extended(g, t, depth, size) && depth == |u|
    requires Holds(g, s, p, i) && i < |u| && u[i] == s[i]
    ensures Holds(h, u, p, i)
  {
    OpenStays(g, h, t, depth, size, p, |g.ts|);
    OpenOneMore(h, p, |g.ts|);
  }

  lemma HoldsNew(g: Page, h: Page, t: Token, size: nat, s: ScanState)
    requires Follows(g, s) && Opens(t) && h == Extended(g, t, |s.stack| + 1, size)
    ensures Holds(h, s.stack + [StackElem(t.tag, s.offset, HasGoradd(t.attrs), IdOf(t.attrs))], |g.ts|, |s.stack|)
  {
    assert h.depths[|g.ts|] == |s.stack| && h.depths[|g.ts| + 1] == |s.stack| + 1;
    assert OpenUntil(h, |g.ts|, |h.ts|);
  }

  /** Below its new top, a token leaves the stack as it was; only a start tag makes it higher. */
  lemma StackAfter(s: ScanState, t: Token)
    ensures var u := ScanToken(s, t).stack;
      && (forall i | 0 <= i < |u| && i < |s.stack| :: u[i] == s.stack[i])
      && (|u| > |s.stack| ==>
          Opens(t) && u == s.stack + [StackElem(t.tag, s.offset, HasGoradd(t.attrs), IdOf(t.attrs))])
      && (Opens(t) ==> |u| > |s.stack|)
      && (t.EndTag? ==> var i := Innermost(s.stack, t.tag); |u| == if i < 0 then |s.stack| else i)
      && ScanToken(s, t).offset == s.offset + t.size
  {
  }

  lemma StackStep(g: Page, h: Page, t: Token, s: ScanState, u: ScanState)
    requires Follows(g, s) && u == ScanToken(s, t) && h == Extended(g, t, |u.stack|, u.offset)
    ensures StackIsOpen(h, u.stack)
  {
    StackAfter(s, t);
    forall p | OpenUntil(h, p, |h.ts|)
      ensures Holds(h, u.stack, p, h.depths[p])
    {
      if p < |g.ts| {
        OpenOneMore(h, p, |g.ts|);
        OpenStays(g, h, t, |u.stack|, u.offset, p, |g.ts|);
        HoldsStays(g, h, t, |u.stack|, u.offset, s.stack, u.stack, p, g.depths[p]);
      } else {
        HoldsNew(g, h, t, u.offset, s);
      }
    }
    forall i | 0 <= i < |u.stack|
      ensures Held(h, u.stack, i)
    {
      if i < |s.stack| {
        assert Held(g, s.stack, i);
        var p :| Holds(g, s.stack, p, i);
        HoldsStays(g, h, t, |u.stack|, u.offset, s.stack, u.stack, p, i);
      } else {
        HoldsNew(g, h, t, u.offset, s);
      }
    }
  }

  /** What a token adds to the result. */
  function Added(s: ScanState, t: Token): seq<GoraddElement> {
    match t
    case Other(_) => []
    case EndTag(tag, _) =>
      var i := Innermost(s.stack, tag);
      if i < 0 then [] else
        var e := s.stack[i];
        Report(e.tag, e.id, e.startPos, s.offset + t.size, e.hasGoradd)
    case _ =>
      if EndsItself(t) then Report(t.tag, IdOf(t.attrs), s.offset, s.offset + t.size, HasGoradd(t.attrs)) else []
  }

  lemma TokenAdds(s: ScanState, t: Token)
    ensures ScanToken(s, t).result == s.result + Added(s, t)
  {
    Regroup(s.result, [], []);
  }

  lemma InReport(r: GoraddElement, tag: string, id: string, start: nat, end: nat, wanted: bool)
    ensures r in Report(tag, id, start, end, wanted) <==> wanted && r == GoraddElement(tag, id, start, end)
  {
  }

  /** An end tag closes the element of token `p` exactly when its innermost match is that element. */
  lemma ClosesHeld(g: Page, h: Page, t: Token, s: ScanState, depth: nat, size: nat, p: int, i: int)
    requires Measured(g) && t.EndTag? && Holds(g, s.stack, p, i) && h == Extended(g, t, depth, size)
    requires var k := Innermost(s.stack, t.tag); depth == if k < 0 then |s.stack| else k
    ensures Closes(h, p, |g.ts|) <==> Innermost(s.stack, t.tag) == i
  {
    InnermostHasTag(s.stack, t.tag);
    OpenStays(g, h, t, depth, size, p, |g.ts|);
  }

  lemma EndTagReports(g: Page, h: Page, t: Token, s: ScanState, depth: nat, p: int, i: int, r: GoraddElement)
    requires Measured(g) && t.EndTag? && Holds(g, s.stack, p, i) && h == Extended(g, t, depth, s.offset + t.size)
    requires var k := Innermost(s.stack, t.tag); depth == if k < 0 then |s.stack| else k
    ensures Reports(h, r, p, |g.ts|) <==> Innermost(s.stack, t.tag) == i && r in Added(s, t)
  {
    ClosesHeld(g, h, t, s, depth, s.offset + t.size, p, i);
    TagRead(g.ts[p].attrs);
    var e := s.stack[i];
    InReport(r, e.tag, e.id, e.startPos, s.offset + t.size, e.hasGoradd);
  }

  lemma EndTagAdds(g: Page, h: Page, t: Token, s: ScanState, depth: nat, r: GoraddElement)
    requires Follows(g, s) && t.EndTag? && h == Extended(g, t, depth, s.offset + t.size)
    requires var k := Innermost(s.stack, t.tag); depth == if k < 0 then |s.stack| else k
    ensures r in Added(s, t) <==> exists p :: Reports(h, r, p, |g.ts|)
  {
    if r in Added(s, t) {
      var i := Innermost(s.stack, t.tag);
      assert Held(g, s.stack, i);
      var p :| Holds(g, s.stack, p, i);
      EndTagReports(g, h, t, s, depth, p, i, r);
    }
    if p :| Reports(h, r, p, |g.ts|) {
      OpenStays(g, h, t, depth, s.offset + t.size, p, |g.ts|);
      EndTagReports(g, h, t, s, depth, p, g.depths[p], r);
    }
  }

  lemma OtherTokenAdds(g: Page, h: Page, t: Token, s: ScanState, depth: nat, r: GoraddElement)
    requires Follows(g, s) && !t.EndTag? && h == Extended(g, t, depth, s.offset + t.size)
    ensures r in Added(s, t) <==> exists p :: Reports(h, r, p, |g.ts|)
  {
    if IsTag(t) {
      TagRead(t.attrs);
      InReport(r, t.tag, IdOf(t.attrs), s.offset, s.offset + t.size, HasGoradd(t.attrs));
    }
    assert r in Added(s, t) <==> Reports(h, r, |g.ts|, |g.ts|);
    forall p | Reports(h, r, p, |g.ts|) ensures p == |g.ts| { }
  }

  lemma ReportedStep(g: Page, h: Page, t: Token, depth: nat, size: nat, r: GoraddElement)
    requires Measured(g) && h == Extended(g, t, depth, size)
    ensures Reported(h, r) <==> Reported(g, r) || exists p :: Reports(h, r, p, |g.ts|)
  {
    if p, q :| Reports(g, r, p, q) {
      ReportsStay(g, h, t, depth, size, r, p, q);
    }
    if p, q :| Reports(h, r, p, q) {
      if q < |g.ts| { ReportsStay(g, h, t, depth, size, r, p, q); }
    }
  }

  lemma FollowsStep(g: Page, h: Page, t: Token, s: ScanState)
    requires Follows(g, s) && h == Extended(g, t, |ScanToken(s, t).stack|, s.offset + t.size)
    ensures Follows(h, ScanToken(s, t))
  {
    var u := ScanToken(s, t);
    StackAfter(s, t);
    StackStep(g, h, t, s, u);
    TokenAdds(s, t);
    forall r
      ensures r in u.result <==> Reported(h, r)
    {
      if t.EndTag? { EndTagAdds(g, h, t, s, |u.stack|, r); } else { OtherTokenAdds(g, h, t, s, |u.stack|, r); }
      ReportedStep(g, h, t, |u.stack|, s.offset + t.size, r);
    }
  }

  lemma ScanSnoc(ts: seq<Token>, t: Token)
    ensures Scan(START, ts + [t]) == ScanToken(Scan(START, ts), t)
  {
    ScanConcat(START, ts, [t]);
    ScanOne(Scan(START, ts), t);
  }

  lemma {:induction false} TotalSizeConcat(a: seq<Token>, b: seq<Token>)
    ensures TotalSize(a + b) == TotalSize(a) + TotalSize(b)
  {
    if a == [] {
      assert a + b == b;
    } else {
      assert (a + b)[1..] == a[1..] + b;
      TotalSizeConcat(a[1..], b);
    }
  }

  lemma PrefixOfSnoc(ts: seq<Token>, t: Token, n: nat)
    requires n <= |ts| + 1
    ensures n <= |ts| ==> (ts + [t])[..n] == ts[..n]
    ensures n == |ts| + 1 ==>
            Scan(START, (ts + [t])[..n]) == ScanToken(Scan(START, ts), t)
            && TotalSize((ts + [t])[..n]) == TotalSize(ts) + t.size
  {
    if n == |ts| + 1 {
      assert (ts + [t])[..n] == ts + [t];
      ScanSnoc(ts, t);
      TotalSizeConcat(ts, [t]);
      assert [t][1..] == [];
    }
  }

  lemma PageSnoc(ts: seq<Token>, t: Token)
    ensures PageOf(ts + [t]) ==
            Extended(PageOf(ts), t, |ScanToken(Scan(START, ts), t).stack|, TotalSize(ts) + t.size)
  {
    var depth, size := |ScanToken(Scan(START, ts), t).stack|, TotalSize(ts) + t.size;
    var g, h := PageOf(ts + [t]), Extended(PageOf(ts), t, depth, size);
    forall n | 0 <= n <= |ts| + 1
      ensures g.depths[n] == h.depths[n] && g.sizes[n] == h.sizes[n]
    {
      PrefixOfSnoc(ts, t, n);
    }
    assert g.depths == h.depths && g.sizes == h.sizes;
  }

  lemma {:induction false} ScanFollows(ts: seq<Token>)
    ensures Follows(PageOf(ts), Scan(START, ts)) && Scan(START, ts).offset == TotalSize(ts)
    decreases |ts|
  {
    if ts == [] {
      NothingReported(PageOf(ts));
    } else {
      var before, t := ts[..|ts| - 1], ts[|ts| - 1];
      assert before + [t] == ts;
      ScanFollows(before);
      ScanSnoc(before, t);
      PageSnoc(before, t);
      FollowsStep(PageOf(before), PageOf(ts), t, Scan(START, before));
      StackAfter(Scan(START, before), t);
      TotalSizeConcat(before, [t]);
      assert [t][1..] == [];
    }
  }

  lemma NothingReported(g: Page)
    requires g == PageOf([])
    ensures Follows(g, START)
  {
    assert g.ts[..0] == [];
  }

  /** For any token stream, an element is reported exactly when it is that of a marked tag which ends
      itself, or of a marked start tag and the first token that pops it, if that is its own end tag.  A
      tag that is never popped, or is popped by the end tag of an element around it, is not reported. */
  lemma ReportedIff(ts: seq<Token>, r: GoraddElement)
    ensures r in Scan(START, ts).result <==> exists p, q :: Reports(PageOf(ts), r, p, q)
  {
    ScanFollows(ts);
    assert Reported(PageOf(ts), r) <==> exists p, q :: Reports(PageOf(ts), r, p, q);
  }
}
