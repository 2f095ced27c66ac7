/** The Windows EAP profile reader: an explicit-stack machine over XML tokens, and the recursive
    reading of a document that it refines. */
module EapXmlReader {
  import opened Wrappers

  datatype Name = Name(space: string, local: string)

  /** What the XML decoder delivers; Ignored is a comment or processing instruction. */
  datatype Token =
    | Start(name: Name, attributes: seq<Name>)
    | Chars(text: string)
    | End
    | Directive
    | Ignored

  datatype Node = Node(name: Name, text: string, children: seq<Node>)

  const MAX_DEPTH := 32
  const MAX_NODES := 4096

  // --- text ---

  predicate IsSpace(c: char) {
    || '\t' <= c <= '\r' || c == ' ' || c == '\U{85}' || c == '\U{A0}' || c == '\U{1680}'
    || '\U{2000}' <= c <= '\U{200A}' || c in "\U{2028}\U{2029}\U{202F}\U{205F}\U{3000}"
  }

  function TrimLeft(s: string): string {
    if s != [] && IsSpace(s[0]) then TrimLeft(s[1..]) else s
  }

  function TrimRight(s: string): string {
    if s != [] && IsSpace(s[|s| - 1]) then TrimRight(s[..|s| - 1]) else s
  }

  function Trim(s: string): string {
    TrimRight(TrimLeft(s))
  }

  // --- the stack machine ---

  datatype Machine = Machine(stack: seq<Node>, root: Option<Node>, count: nat)

  const EMPTY := Machine([], None, 0)

  /** Only namespace declarations are allowed. */
  predicate DeclaresNamespace(attribute: Name) {
    attribute.space == "xmlns" || (attribute.space == "" && attribute.local == "xmlns")
  }

  predicate StartAllowed(name: Name, attributes: seq<Name>) {
    name.space != "" && forall i :: 0 <= i < |attributes| ==> DeclaresNamespace(attributes[i])
  }

  /** A child may join its siblings: its name is new, unless it is a TrustedRootCA. */
  predicate Joins(children: seq<Node>, name: Name) {
    name.local == "TrustedRootCA" || forall i :: 0 <= i < |children| ==> children[i].name != name
  }

  function Top(m: Machine): Node
    requires m.stack != []
  {
    m.stack[|m.stack| - 1]
  }

  function Below(m: Machine): seq<Node>
    requires m.stack != []
  {
    m.stack[..|m.stack| - 1]
  }

  /** One token; nothing means the profile is refused. */
  function Step(m: Machine, token: Token): Option<Machine> {
    match token
    case Start(name, attributes) =>
      if m.root.Some? || |m.stack| >= MAX_DEPTH || m.count + 1 > MAX_NODES || !StartAllowed(name, attributes) then None
      else Some(m.(stack := m.stack + [Node(name, "", [])], count := m.count + 1))
    case Chars(text) =>
      if m.stack == [] then (if Trim(text) == "" then Some(m) else None)
      else Some(m.(stack := Below(m) + [Top(m).(text := Top(m).text + text)]))
    case End =>
      if m.stack == [] then None
      else
        var node := Top(m).(text := Trim(Top(m).text));
        if node.children != [] && node.text != "" then None
        else if |m.stack| == 1 then Some(m.(stack := [], root := Some(node)))
        else
          var outer := m.(stack := Below(m));
          if !Joins(Top(outer).children, node.name) then None
          else Some(m.(stack := Below(outer) + [Top(outer).(children := Top(outer).children + [node])]))
    case Directive => None
    case Ignored => Some(m)
  }

  function Run(m: Machine, tokens: seq<Token>): Option<Machine>
    decreases |tokens|
  {
    if tokens == [] then Some(m)
    else
      var next := Step(m, tokens[0]);
      if next.None? then None else Run(next.value, tokens[1..])
  }

  /** The parsed profile, or nothing. */
  function Parsed(tokens: seq<Token>): Option<Node> {
    var end := Run(EMPTY, tokens);
    if end.Some? && end.value.stack == [] then end.value.root else None
  }

  lemma {:induction false} RunAppend(m: Machine, a: seq<Token>, b: seq<Token>)
    ensures Run(m, a + b) == if Run(m, a).None? then None else Run(Run(m, a).value, b)
    decreases |a|
  {
    if a == [] {
      assert a + b == b;
    } else {
      assert (a + b)[1..] == a[1..] + b;
      if Step(m, a[0]).Some? {
        RunAppend(Step(m, a[0]).value, a[1..], b);
      }
    }
  }

  /** The reader's loop: one pass with a stack, a root and a node count. */
  method ParseXml(tokens: seq<Token>) returns (result: Option<Node>)
    ensures result == Parsed(tokens)
  {
    var stack: seq<Node> := [];
    var root: Option<Node> := None;
    var count := 0;
    for i := 0 to |tokens|
      invariant Run(EMPTY, tokens[..i]) == Some(Machine(stack, root, count))
    {
      assert tokens[..i + 1] == tokens[..i] + [tokens[i]];
      RunAppend(EMPTY, tokens[..i], [tokens[i]]);
      assert tokens == tokens[..i + 1] + tokens[i + 1..];
      RunAppend(EMPTY, tokens[..i + 1], tokens[i + 1..]);
      match tokens[i]
      case Start(name, attributes) =>
        count := count + 1;
        if root.Some? || |stack| >= MAX_DEPTH || count > MAX_NODES || !StartAllowed(name, attributes) {
          return None;
        }
        stack := stack + [Node(name, "", [])];
      case Chars(text) =>
        if |stack| == 0 {
          if Trim(text) != "" {
            return None;
          }
        } else {
          var top := stack[|stack| - 1];
          stack := stack[..|stack| - 1] + [top.(text := top.text + text)];
        }
      case End =>
        if |stack| == 0 {
          return None;
        }
        var node := stack[|stack| - 1].(text := Trim(stack[|stack| - 1].text));
        stack := stack[..|stack| - 1];
        if |node.children| != 0 && node.text != "" {
          return None;
        }
        if |stack| == 0 {
          root := Some(node);
        } else {
          var parent := stack[|stack| - 1];
          if !Joins(parent.children, node.name) {
            return None;
          }
          stack := stack[..|stack| - 1] + [parent.(children := parent.children + [node])];
        }
      case Directive =>
        return None;
      case Ignored =>
    }
    assert tokens[..|tokens|] == tokens;
    result := if |stack| == 0 then root else None;
  }

  // --- documents ---

  /** A well-nested document: what the decoder's tokens spell. */
  datatype Item =
    | Element(name: Name, attributes: seq<Name>, items: seq<Item>)
    | Text(text: string)
    | Declaration
    | Comment

  function TokensOf(item: Item): seq<Token>
    decreases item, 1
  {
    match item
    case Element(name, attributes, items) => [Start(name, attributes)] + Flatten(items) + [End]
    case Text(text) => [Chars(text)]
    case Declaration => [Directive]
    case Comment => [Ignored]
  }

  function Flatten(items: seq<Item>): seq<Token>
    decreases items, 0
  {
    if items == [] then [] else TokensOf(items[0]) + Flatten(items[1..])
  }

  /** All character data directly among the items. */
  function TextOf(items: seq<Item>): string {
    if items == [] then ""
    else (if items[0].Text? then items[0].text else "") + TextOf(items[1..])
  }

  /** The element as a tree: its own trimmed text and its child elements in order. */
  function TreeOf(e: Item): Node
    requires e.Element?
    decreases e, 1
  {
    Node(e.name, Trim(TextOf(e.items)), TreesOf(e.items))
  }

  function TreesOf(items: seq<Item>): seq<Node>
    decreases items, 0
  {
    if items == [] then []
    else (if items[0].Element? then [TreeOf(items[0])] else []) + TreesOf(items[1..])
  }

  function Max(a: nat, b: nat): nat {
    if a < b then b else a
  }

  function Height(e: Item): nat
    decreases e, 1
  {
    if e.Element? then 1 + HeightOf(e.items) else 0
  }

  function HeightOf(items: seq<Item>): nat
    decreases items, 0
  {
    if items == [] then 0 else Max(Height(items[0]), HeightOf(items[1..]))
  }

  function Size(e: Item): nat
    decreases e, 1
  {
    if e.Element? then 1 + SizeOf(e.items) else 0
  }

  function SizeOf(items: seq<Item>): nat
    decreases items, 0
  {
    if items == [] then 0 else Size(items[0]) + SizeOf(items[1..])
  }

  /** No two siblings share a name, except TrustedRootCA. */
  predicate NoRepeats(children: seq<Node>) {
    forall i, j :: 0 <= i < j < |children| && children[i].name == children[j].name ==>
      children[j].name.local == "TrustedRootCA"
  }

  /** At every level: namespaced, no foreign attributes, no directive, no mixed content, no repeated field. */
  predicate Proper(e: Item)
    decreases e, 1
  {
    match e
    case Element(name, attributes, items) =>
      && StartAllowed(name, attributes)
      && (TreesOf(items) == [] || Trim(TextOf(items)) == "")
      && NoRepeats(TreesOf(items))
      && AllProper(items)
    case Declaration => false
    case _ => true
  }

  predicate AllProper(items: seq<Item>)
    decreases items, 0
  {
    items == [] || (Proper(items[0]) && AllProper(items[1..]))
  }

  // --- the machine inside an element ---

  /** Reading the items below the open top node succeeds exactly under this condition. */
  predicate Absorbs(m: Machine, items: seq<Item>)
    requires m.stack != []
  {
    && AllProper(items)
    && NoRepeats(Top(m).children + TreesOf(items))
    && |m.stack| + HeightOf(items) <= MAX_DEPTH
    && m.count + SizeOf(items) <= MAX_NODES
  }

  function Absorbed(m: Machine, items: seq<Item>): Machine
    requires m.stack != []
  {
    Machine(Below(m) + [Node(Top(m).name, Top(m).text + TextOf(items), Top(m).children + TreesOf(items))],
            m.root, m.count + SizeOf(items))
  }

  lemma {:induction false} RunItems(m: Machine, items: seq<Item>)
    requires m.stack != [] && m.root.None? && |m.stack| <= MAX_DEPTH && m.count <= MAX_NODES
    requires NoRepeats(Top(m).children)
    ensures Run(m, Flatten(items)) == if Absorbs(m, items) then Some(Absorbed(m, items)) else None
    decreases items, 0
  {
    if items == [] {
      assert Top(m).children + [] == Top(m).children;
      assert Top(m).text + "" == Top(m).text;
      assert m.stack == Below(m) + [Top(m)];
    } else {
      var first, rest := items[0], items[1..];
      RunItem(m, first);
      RunAppend(m, TokensOf(first), Flatten(rest));
      AbsorbsSplit(m, first, rest);
      assert items == [first] + rest;
      if Absorbs(m, [first]) {
        RunItems(Absorbed(m, [first]), rest);
      }
    }
  }

  lemma {:induction false} RunItem(m: Machine, item: Item)
    requires m.stack != [] && m.root.None? && |m.stack| <= MAX_DEPTH && m.count <= MAX_NODES
    requires NoRepeats(Top(m).children)
    ensures Run(m, TokensOf(item)) == if Absorbs(m, [item]) then Some(Absorbed(m, [item])) else None
    decreases item, 1
  {
    match item
    case Element(name, attributes, items) =>
      RunElement(m, item);
    case Text(text) =>
      OneItem(m, item);
    case Declaration =>
      OneItem(m, item);
    case Comment =>
      OneItem(m, item);
  }

  lemma SingleItem(item: Item)
    ensures TextOf([item]) == if item.Text? then item.text else ""
    ensures TreesOf([item]) == if item.Element? then [TreeOf(item)] else []
    ensures HeightOf([item]) == Height(item) && SizeOf([item]) == Size(item)
    ensures AllProper([item]) <==> Proper(item)
  {
  }

  /** Text, comments and directives inside an element are one machine step. */
  lemma OneItem(m: Machine, item: Item)
    requires m.stack != [] && NoRepeats(Top(m).children) && !item.Element?
    requires |m.stack| <= MAX_DEPTH && m.count <= MAX_NODES
    ensures Run(m, TokensOf(item)) == if Absorbs(m, [item]) then Some(Absorbed(m, [item])) else None
  {
    SingleItem(item);
    AbsorbedLeaf(m, item);
    RunOne(m, TokensOf(item)[0]);
    assert TokensOf(item) == [TokensOf(item)[0]];
  }

  lemma AbsorbedLeaf(m: Machine, item: Item)
    requires m.stack != [] && !item.Element?
    ensures Absorbed(m, [item])
            == m.(stack := Below(m) + [Top(m).(text := Top(m).text + if item.Text? then item.text else "")])
    ensures item.Comment? ==> Absorbed(m, [item]) == m
    ensures Top(m).children + TreesOf([item]) == Top(m).children
  {
    SingleItem(item);
    assert Top(m).children + [] == Top(m).children;
    if item.Comment? {
      assert Top(m).text + "" == Top(m).text;
      assert m.stack == Below(m) + [Top(m)];
    }
  }

  /** An element: push, read its items, pop. */
  lemma {:induction false} RunElement(m: Machine, e: Item)
    requires e.Element?
    requires m.stack != [] && m.root.None? && |m.stack| <= MAX_DEPTH && m.count <= MAX_NODES
    requires NoRepeats(Top(m).children)
    ensures Run(m, TokensOf(e)) == if Absorbs(m, [e]) then Some(Absorbed(m, [e])) else None
    decreases e, 0
  {
    AbsorbsElement(m, e);
    var start := Start(e.name, e.attributes);
    assert TokensOf(e) == [start] + (Flatten(e.items) + [End]);
    RunAppend(m, [start], Flatten(e.items) + [End]);
    RunOne(m, start);
    if Step(m, start).Some? {
      RunItems(Step(m, start).value, e.items);
      CloseElement(m, e, Step(m, start).value);
    }
  }

  lemma CloseElement(m: Machine, e: Item, p: Machine)
    requires e.Element? && m.stack != [] && NoRepeats(Top(m).children)
    requires Step(m, Start(e.name, e.attributes)) == Some(p)
    requires Run(p, Flatten(e.items)) == if Absorbs(p, e.items) then Some(Absorbed(p, e.items)) else None
    ensures Run(p, Flatten(e.items) + [End]) == if Absorbs(m, [e]) then Some(Absorbed(m, [e])) else None
  {
    AbsorbsElement(m, e);
    PushedElement(m, e, p);
    RunAppend(p, Flatten(e.items), [End]);
    if Absorbs(p, e.items) {
      RunOne(Absorbed(p, e.items), End);
      PopElement(m, e, Absorbed(p, e.items));
    }
  }

  lemma AbsorbsElement(m: Machine, e: Item)
    requires e.Element? && m.stack != [] && NoRepeats(Top(m).children)
    ensures Absorbs(m, [e]) <==>
            && StartAllowed(e.name, e.attributes) && AllProper(e.items) && NoRepeats(TreesOf(e.items))
            && |m.stack| + 1 + HeightOf(e.items) <= MAX_DEPTH && m.count + 1 + SizeOf(e.items) <= MAX_NODES
            && (TreesOf(e.items) == [] || Trim(TextOf(e.items)) == "")
            && NoRepeats(Top(m).children + [TreeOf(e)])
    ensures Absorbed(m, [e])
            == Machine(Below(m) + [Top(m).(children := Top(m).children + [TreeOf(e)])], m.root,
              m.count + 1 + SizeOf(e.items))
  {
    SingleItem(e);
    assert Top(m).text + "" == Top(m).text;
  }

  lemma PushedElement(m: Machine, e: Item, p: Machine)
    requires e.Element? && m.stack != [] && NoRepeats(Top(m).children)
    requires Step(m, Start(e.name, e.attributes)) == Some(p)
    ensures p.stack == m.stack + [Node(e.name, "", [])] && p.root == m.root && p.count == m.count + 1
    ensures Absorbs(p, e.items) <==> && AllProper(e.items) && NoRepeats(TreesOf(e.items))
                                     && |m.stack| + 1 + HeightOf(e.items) <= MAX_DEPTH
                                     && m.count + 1 + SizeOf(e.items) <= MAX_NODES
    ensures Absorbed(p, e.items)
            == Machine(m.stack + [Node(e.name, TextOf(e.items), TreesOf(e.items))], m.root,
              m.count + 1 + SizeOf(e.items))
  {
    assert Below(p) == m.stack;
    assert [] + TreesOf(e.items) == TreesOf(e.items) && "" + TextOf(e.items) == TextOf(e.items);
  }

  lemma RunOne(m: Machine, token: Token)
    ensures Run(m, [token]) == Step(m, token)
  {
  }

  /** Closing a fully read element either refuses it or adds its tree to the parent. */
  lemma PopElement(m: Machine, e: Item, full: Machine)
    requires e.Element? && m.stack != [] && NoRepeats(Top(m).children)
    requires full.stack == m.stack + [Node(e.name, TextOf(e.items), TreesOf(e.items))]
    requires full.root == m.root && full.count == m.count + 1 + SizeOf(e.items)
    ensures Step(full, End) ==
            if (TreesOf(e.items) != [] && Trim(TextOf(e.items)) != "")
               || !NoRepeats(Top(m).children + [TreeOf(e)]) then None
            else Some(Machine(Below(m) + [Top(m).(children := Top(m).children + [TreeOf(e)])], m.root, full.count))
  {
    assert Below(full) == m.stack;
    JoinsIsNoRepeat(Top(m).children, TreeOf(e));
  }

  lemma JoinsIsNoRepeat(children: seq<Node>, node: Node)
    requires NoRepeats(children)
    ensures Joins(children, node.name) <==> NoRepeats(children + [node])
  {
    var all := children + [node];
    if Joins(children, node.name) {
      forall i, j | 0 <= i < j < |all| && all[i].name == all[j].name
        ensures all[j].name.local == "TrustedRootCA"
      {
        if j < |children| {
          assert all[i] == children[i] && all[j] == children[j];
        }
      }
    } else {
      var i :| 0 <= i < |children| && children[i].name == node.name;
      assert all[i].name == all[|children|].name;
    }
  }

  lemma AbsorbsSplit(m: Machine, first: Item, rest: seq<Item>)
    requires m.stack != [] && NoRepeats(Top(m).children)
    ensures Absorbs(m, [first] + rest) <==> Absorbs(m, [first]) && Absorbs(Absorbed(m, [first]), rest)
    ensures Absorbed(m, [first] + rest) == Absorbed(Absorbed(m, [first]), rest)
    ensures Absorbs(m, [first]) ==> NoRepeats(Top(Absorbed(m, [first])).children)
  {
    var items := [first] + rest;
    assert items[0] == first && items[1..] == rest;
    SingleItem(first);
    SplitLists(Top(m).children, TreesOf([first]), TreesOf(rest), TreesOf(items));
    SplitText(Top(m).text, TextOf([first]), TextOf(rest), TextOf(items));
  }

  lemma SplitLists(a: seq<Node>, b: seq<Node>, c: seq<Node>, bc: seq<Node>)
    requires bc == b + c
    ensures a + bc == a + b + c
    ensures NoRepeats(a + bc) ==> NoRepeats(a + b)
  {
    var all, part := a + bc, a + b;
    assert forall i :: 0 <= i < |part| ==> part[i] == all[i];
  }

  lemma SplitText(a: string, b: string, c: string, bc: string)
    requires bc == b + c
    ensures a + bc == a + b + c
  {
  }

  // --- whole documents ---

  /** One proper root element, at most 32 deep and 4096 nodes large; around it only space and comments. */
  predicate AcceptableDocument(doc: seq<Item>, i: nat)
    requires i < |doc|
  {
    && doc[i].Element? && Proper(doc[i]) && Height(doc[i]) <= MAX_DEPTH && Size(doc[i]) <= MAX_NODES
    && forall k :: 0 <= k < |doc| && k != i ==> Surrounding(doc[k])
  }

  predicate Surrounding(item: Item) {
    item.Comment? || (item.Text? && Trim(item.text) == "")
  }

  /** Outside the root the machine skips surroundings and refuses the rest. */
  lemma {:induction false} RunOutside(m: Machine, items: seq<Item>)
    requires m.stack == [] && m.root.Some?
    ensures Run(m, Flatten(items)) ==
            if forall k :: 0 <= k < |items| ==> Surrounding(items[k]) then Some(m) else None
  {
    if items != [] {
      RunAppend(m, TokensOf(items[0]), Flatten(items[1..]));
      if items[0].Element? {
        var start := Start(items[0].name, items[0].attributes);
        assert TokensOf(items[0]) == [start] + (Flatten(items[0].items) + [End]);
        RunAppend(m, [start], Flatten(items[0].items) + [End]);
        RunOne(m, start);
      } else {
        RunOne(m, TokensOf(items[0])[0]);
        assert TokensOf(items[0]) == [TokensOf(items[0])[0]];
      }
      if Surrounding(items[0]) {
        RunOutside(m, items[1..]);
        assert forall k :: 0 < k < |items| ==> items[k] == items[1..][k - 1];
      }
    }
  }

  /** The root element. */
  lemma {:induction false} RunRoot(e: Item)
    requires e.Element?
    ensures Run(EMPTY, TokensOf(e)) ==
            if Proper(e) && Height(e) <= MAX_DEPTH && Size(e) <= MAX_NODES
            then Some(Machine([], Some(TreeOf(e)), Size(e))) else None
  {
    var start := Start(e.name, e.attributes);
    assert TokensOf(e) == [start] + (Flatten(e.items) + [End]);
    RunAppend(EMPTY, [start], Flatten(e.items) + [End]);
    RunOne(EMPTY, start);
    if Step(EMPTY, start).Some? {
      RunItems(Step(EMPTY, start).value, e.items);
      CloseRoot(e, Step(EMPTY, start).value);
    }
  }

  lemma CloseRoot(e: Item, p: Machine)
    requires e.Element? && Step(EMPTY, Start(e.name, e.attributes)) == Some(p)
    requires Run(p, Flatten(e.items)) == if Absorbs(p, e.items) then Some(Absorbed(p, e.items)) else None
    ensures Run(p, Flatten(e.items) + [End]) ==
            if Proper(e) && Height(e) <= MAX_DEPTH && Size(e) <= MAX_NODES
            then Some(Machine([], Some(TreeOf(e)), Size(e))) else None
  {
    PushedRoot(e, p);
    RunAppend(p, Flatten(e.items), [End]);
    if Absorbs(p, e.items) {
      RunOne(Absorbed(p, e.items), End);
      PopRoot(e, Absorbed(p, e.items));
    }
  }

  lemma PushedRoot(e: Item, p: Machine)
    requires e.Element? && Step(EMPTY, Start(e.name, e.attributes)) == Some(p)
    ensures p == Machine([Node(e.name, "", [])], None, 1) && StartAllowed(e.name, e.attributes)
    ensures Absorbs(p, e.items) <==> && AllProper(e.items) && NoRepeats(TreesOf(e.items))
                                     && 1 + HeightOf(e.items) <= MAX_DEPTH && 1 + SizeOf(e.items) <= MAX_NODES
    ensures Absorbed(p, e.items) == Machine([Node(e.name, TextOf(e.items), TreesOf(e.items))], None,
              1 + SizeOf(e.items))
  {
    assert p.stack == [Node(e.name, "", [])];
    assert Below(p) == [];
    assert [] + TreesOf(e.items) == TreesOf(e.items);
    assert "" + TextOf(e.items) == TextOf(e.items);
  }

  lemma PopRoot(e: Item, full: Machine)
    requires e.Element?
    requires full == Machine([Node(e.name, TextOf(e.items), TreesOf(e.items))], None, 1 + SizeOf(e.items))
    ensures Step(full, End) == if TreesOf(e.items) != [] && Trim(TextOf(e.items)) != "" then None
                               else Some(Machine([], Some(TreeOf(e)), Size(e)))
  {
  }

  lemma {:induction false} RunDocument(doc: seq<Item>)
    ensures var r := Run(EMPTY, Flatten(doc));
            && (forall i :: 0 <= i < |doc| && AcceptableDocument(doc, i) ==>
                  r == Some(Machine([], Some(TreeOf(doc[i])), Size(doc[i]))))
            && ((forall i :: 0 <= i < |doc| ==> !AcceptableDocument(doc, i)) ==> r.None? || r == Some(EMPTY))
    decreases |doc|
  {
    if doc != [] {
      var first, rest := doc[0], doc[1..];
      RunAppend(EMPTY, TokensOf(first), Flatten(rest));
      assert forall k :: 0 <= k < |rest| ==> rest[k] == doc[k + 1];
      if first.Element? {
        RunRoot(first);
        if Run(EMPTY, TokensOf(first)).Some? {
          RunOutside(Run(EMPTY, TokensOf(first)).value, rest);
          assert (forall k :: 0 <= k < |rest| ==> Surrounding(rest[k])) <==> AcceptableDocument(doc, 0);
        }
        assert forall i :: 0 < i < |doc| ==> !AcceptableDocument(doc, i);
      } else {
        RunOne(EMPTY, TokensOf(first)[0]);
        assert TokensOf(first) == [TokensOf(first)[0]];
        RunDocument(rest);
        forall i | 0 <= i < |doc|
          ensures AcceptableDocument(doc, i) <==> i > 0 && Surrounding(first) && AcceptableDocument(rest, i - 1)
        {
          if i > 0 && AcceptableDocument(doc, i) {
            assert Surrounding(doc[0]);
          }
        }
        if Surrounding(first) && forall i :: 0 <= i < |doc| ==> !AcceptableDocument(doc, i) {
          forall k | 0 <= k < |rest|
            ensures !AcceptableDocument(rest, k)
          {
            assert !AcceptableDocument(doc, k + 1);
          }
        }
      }
    }
  }

  /** For every well-nested document the stack machine accepts exactly the acceptable ones and returns
      exactly the root's tree with trimmed text. */
  lemma ReaderRefinesTree(doc: seq<Item>)
    ensures forall i :: 0 <= i < |doc| && AcceptableDocument(doc, i) ==> Parsed(Flatten(doc)) == Some(TreeOf(doc[i]))
    ensures Parsed(Flatten(doc)).Some? ==> exists i :: 0 <= i < |doc| && AcceptableDocument(doc, i)
  {
    RunDocument(doc);
  }
}
