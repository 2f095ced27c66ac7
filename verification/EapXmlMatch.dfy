/** Comparing Windows EAP profiles: canonical forms, and the reordering they stand for. */
module EapXmlMatch {
  import opened Wrappers
  import opened Sequences
  import opened Sorting
  import opened EapXmlReader

  /** Lower-casing of a character, and the text a normalised node is sorted and compared by. */
  datatype Forms = Forms(lower: char -> char, encode: Node -> string)
  {
    /** Lower-casing is idempotent and makes no space; the encoding loses nothing. */
    ghost predicate Lawful() {
      && (forall c :: lower(lower(c)) == lower(c))
      && (forall c :: !IsSpace(c) ==> !IsSpace(lower(c)))
      && Injective(encode)
    }
  }

  /** Hexadecimal text without spaces and in lower case. */
  function Fold(f: Forms, text: string): string {
    if text == [] then []
    else (if IsSpace(text[0]) then [] else [f.lower(text[0])]) + Fold(f, text[1..])
  }

  const HEX_FIELDS := ["hex", "TrustedRootCA", "UserCert"]

  predicate IsHexField(name: Name) {
    name.local in HEX_FIELDS
  }

  function FoldedText(f: Forms, node: Node): string {
    if IsHexField(node.name) then Fold(f, node.text) else node.text
  }

  function Normalize(f: Forms, node: Node): Node
    decreases node, 1
  {
    Node(node.name, FoldedText(f, node), Sort(f.encode, NormalizeAll(f, node.children)))
  }

  function NormalizeAll(f: Forms, nodes: seq<Node>): (r: seq<Node>)
    ensures |r| == |nodes| && forall i :: 0 <= i < |nodes| ==> r[i] == Normalize(f, nodes[i])
    decreases nodes, 0
  {
    if nodes == [] then []
    else
      var rest := NormalizeAll(f, nodes[1..]);
      assert forall i :: 0 < i < |nodes| ==> ([Normalize(f, nodes[0])] + rest)[i] == rest[i - 1];
      [Normalize(f, nodes[0])] + rest
  }

  function Canonical(f: Forms, node: Node): string {
    f.encode(Normalize(f, node))
  }

  // --- the order-free meaning ---

  /** b is a with siblings reordered, at every level; hexadecimal fields are compared folded. */
  ghost predicate Reordered(f: Forms, a: Node, b: Node)
    decreases a, 1
  {
    && a.name == b.name
    && FoldedText(f, a) == FoldedText(f, b)
    && Rearranged(f, a.children, b.children)
  }

  /** Each node of xs is paired off with a node of ys, each used once. */
  ghost predicate Rearranged(f: Forms, xs: seq<Node>, ys: seq<Node>)
    decreases xs, 0
  {
    if xs == [] then ys == []
    else exists j :: 0 <= j < |ys| && Reordered(f, xs[0], ys[j]) && Rearranged(f, xs[1..], Remove(ys, j))
  }

  lemma NormalizeAllRemove(f: Forms, nodes: seq<Node>, i: nat)
    requires i < |nodes|
    ensures NormalizeAll(f, Remove(nodes, i)) == Remove(NormalizeAll(f, nodes), i)
  {
  }

  /** Equal canonical forms are exactly reorderings. */
  lemma {:induction false} NormalizeDecidesReordering(f: Forms, a: Node, b: Node)
    requires f.Lawful()
    ensures Normalize(f, a) == Normalize(f, b) <==> Reordered(f, a, b)
    decreases a, 1
  {
    RearrangedIsSameMultiset(f, a.children, b.children);
    SortIgnoresOrder(f.encode, NormalizeAll(f, a.children), NormalizeAll(f, b.children));
  }

  /** Taking a matching pair out of two lists keeps the question whether the rest matches. */
  lemma SameMultisetStep(f: Forms, xs: seq<Node>, ys: seq<Node>, j: nat)
    requires xs != [] && j < |ys| && Normalize(f, xs[0]) == Normalize(f, ys[j])
    ensures multiset(NormalizeAll(f, xs)) == multiset(NormalizeAll(f, ys))
            <==> multiset(NormalizeAll(f, xs[1..])) == multiset(NormalizeAll(f, Remove(ys, j)))
  {
    var nx, ny := NormalizeAll(f, xs), NormalizeAll(f, ys);
    MultisetWithout(nx, 0);
    MultisetWithout(ny, j);
    NormalizeAllRemove(f, ys, j);
    assert Remove(nx, 0) == NormalizeAll(f, xs[1..]);
    SameSum(multiset{nx[0]}, multiset(NormalizeAll(f, xs[1..])), multiset(NormalizeAll(f, Remove(ys, j))));
  }

  lemma {:induction false} RearrangedIsSameMultiset(f: Forms, xs: seq<Node>, ys: seq<Node>)
    requires f.Lawful()
    ensures Rearranged(f, xs, ys) <==> multiset(NormalizeAll(f, xs)) == multiset(NormalizeAll(f, ys))
    decreases xs, 0
  {
    if xs == [] {
      EmptyOnly(NormalizeAll(f, ys));
    } else {
      forall j | 0 <= j < |ys|
        ensures Reordered(f, xs[0], ys[j]) <==> Normalize(f, xs[0]) == Normalize(f, ys[j])
        ensures Reordered(f, xs[0], ys[j]) ==>
                  (Rearranged(f, xs[1..], Remove(ys, j))
                   <==> multiset(NormalizeAll(f, xs)) == multiset(NormalizeAll(f, ys)))
      {
        NormalizeDecidesReordering(f, xs[0], ys[j]);
        if Reordered(f, xs[0], ys[j]) {
          SameMultisetStep(f, xs, ys, j);
          RearrangedIsSameMultiset(f, xs[1..], Remove(ys, j));
        }
      }
      if multiset(NormalizeAll(f, xs)) == multiset(NormalizeAll(f, ys)) {
        var j := PartnerOfFirst(NormalizeAll(f, xs), NormalizeAll(f, ys));
        assert Reordered(f, xs[0], ys[j]);
      }
    }
  }

  /** Two profiles have equal canonical text exactly if one is a reordering of the other. */
  lemma CanonicalDecidesReordering(f: Forms, a: Node, b: Node)
    requires f.Lawful()
    ensures Canonical(f, a) == Canonical(f, b) <==> Reordered(f, a, b)
  {
    NormalizeDecidesReordering(f, a, b);
  }

  // --- normalisation is a projection ---

  lemma {:induction false} FoldIdempotent(f: Forms, text: string)
    requires f.Lawful()
    ensures Fold(f, Fold(f, text)) == Fold(f, text)
  {
    if text != [] {
      FoldIdempotent(f, text[1..]);
      if IsSpace(text[0]) {
        assert Fold(f, text) == [] + Fold(f, text[1..]) == Fold(f, text[1..]);
      } else {
        var folded := [f.lower(text[0])] + Fold(f, text[1..]);
        assert folded[1..] == Fold(f, text[1..]);
      }
    }
  }

  lemma {:induction false} NormalizeIdempotent(f: Forms, node: Node)
    requires f.Lawful()
    ensures Normalize(f, Normalize(f, node)) == Normalize(f, node)
    decreases node, 1
  {
    FoldIdempotent(f, node.text);
    NormalizeAllFixed(f, node.children);
    SortedChildrenFixed(f, NormalizeAll(f, node.children));
  }

  lemma SortedChildrenFixed(f: Forms, children: seq<Node>)
    requires f.Lawful() && forall x :: x in children ==> Normalize(f, x) == x
    ensures Sort(f.encode, NormalizeAll(f, Sort(f.encode, children))) == Sort(f.encode, children)
  {
    var sorted := Sort(f.encode, children);
    forall i | 0 <= i < |sorted|
      ensures Normalize(f, sorted[i]) == sorted[i]
    {
      assert sorted[i] in multiset(sorted);
      assert sorted[i] in multiset(children);
    }
    assert NormalizeAll(f, sorted) == sorted;
    SortIgnoresOrder(f.encode, sorted, children);
  }

  lemma {:induction false} NormalizeAllFixed(f: Forms, nodes: seq<Node>)
    requires f.Lawful()
    ensures forall x :: x in NormalizeAll(f, nodes) ==> Normalize(f, x) == x
    decreases nodes, 0
  {
    if nodes != [] {
      NormalizeIdempotent(f, nodes[0]);
      NormalizeAllFixed(f, nodes[1..]);
    }
  }

  /** A profile is a reordering of its own normal form; reordering is an equivalence. */
  lemma ReorderingIsEquivalence(f: Forms, a: Node, b: Node, c: Node)
    requires f.Lawful()
    ensures Reordered(f, a, a) && Reordered(f, a, Normalize(f, a))
    ensures Reordered(f, a, b) ==> Reordered(f, b, a)
    ensures Reordered(f, a, b) && Reordered(f, b, c) ==> Reordered(f, a, c)
  {
    NormalizeIdempotent(f, a);
    NormalizeDecidesReordering(f, a, a);
    NormalizeDecidesReordering(f, a, Normalize(f, a));
    NormalizeDecidesReordering(f, a, b);
    NormalizeDecidesReordering(f, b, a);
    NormalizeDecidesReordering(f, b, c);
    NormalizeDecidesReordering(f, a, c);
  }

  // --- every parsed profile has distinct sibling names ---

  predicate UniqueNames(node: Node)
    decreases node, 1
  {
    NoRepeats(node.children) && AllUnique(node.children)
  }

  predicate AllUnique(nodes: seq<Node>)
    decreases nodes, 0
  {
    nodes == [] || (UniqueNames(nodes[0]) && AllUnique(nodes[1..]))
  }

  lemma {:induction false} AllUniqueAppend(nodes: seq<Node>, node: Node)
    requires AllUnique(nodes) && UniqueNames(node)
    ensures AllUnique(nodes + [node])
    decreases |nodes|
  {
    if nodes == [] {
      assert (nodes + [node])[1..] == [];
    } else {
      AllUniqueAppend(nodes[1..], node);
      assert (nodes + [node])[1..] == nodes[1..] + [node];
    }
  }

  lemma {:induction false} AllUniqueAt(nodes: seq<Node>, i: nat)
    requires AllUnique(nodes) && i < |nodes|
    ensures UniqueNames(nodes[i])
    decreases |nodes|
  {
    if i > 0 {
      AllUniqueAt(nodes[1..], i - 1);
    }
  }

  ghost predicate MachineUnique(m: Machine) {
    && (forall i :: 0 <= i < |m.stack| ==> UniqueNames(m.stack[i]))
    && (m.root.Some? ==> UniqueNames(m.root.value))
  }

  lemma StepUnique(m: Machine, token: Token)
    requires MachineUnique(m) && Step(m, token).Some?
    ensures MachineUnique(Step(m, token).value)
  {
    if token.End? && |m.stack| > 1 {
      var node := Top(m).(text := Trim(Top(m).text));
      var outer := m.(stack := Below(m));
      assert Top(outer) == m.stack[|m.stack| - 2];
      JoinsIsNoRepeat(Top(outer).children, node);
      AllUniqueAppend(Top(outer).children, node);
    }
  }

  lemma {:induction false} RunUnique(m: Machine, tokens: seq<Token>)
    requires MachineUnique(m) && Run(m, tokens).Some?
    ensures MachineUnique(Run(m, tokens).value)
    decreases |tokens|
  {
    if tokens != [] {
      StepUnique(m, tokens[0]);
      RunUnique(Step(m, tokens[0]).value, tokens[1..]);
    }
  }

  lemma ParsedUnique(tokens: seq<Token>)
    requires Parsed(tokens).Some?
    ensures UniqueNames(Parsed(tokens).value)
  {
    RunUnique(EMPTY, tokens);
  }

  // --- matching, and the wired baseline verdict ---

  /** Both profiles parse and have the same canonical form. */
  predicate Matches(f: Forms, actual: seq<Token>, expected: seq<Token>) {
    && Parsed(actual).Some? && Parsed(expected).Some?
    && Canonical(f, Parsed(actual).value) == Canonical(f, Parsed(expected).value)
  }

  const LAN_SPACE := "http://www.microsoft.com/networking/LAN/profile/v1"

  /** The first child with the name. */
  function Child(nodes: seq<Node>, name: Name): (r: Option<Node>)
    ensures r.Some? <==> exists i :: 0 <= i < |nodes| && nodes[i].name == name
    ensures r.Some? ==> r.value.name == name && r.value in nodes
  {
    if nodes == [] then None
    else if nodes[0].name == name then Some(nodes[0])
    else
      assert forall i :: 0 < i < |nodes| ==> nodes[i] == nodes[1..][i - 1];
      Child(nodes[1..], name)
  }

  function Descend(node: Node, path: seq<string>): Option<Node> {
    if path == [] then Some(node)
    else
      var child := Child(node.children, Name(LAN_SPACE, path[0]));
      if child.None? then None else Descend(child.value, path[1..])
  }

  const SWITCH_PATH := ["MSM", "security", "OneXEnabled"]

  /** A wired profile whose 802.1X is off: the only baseline the service replaces. */
  predicate BaselineAllowed(tokens: seq<Token>) {
    Parsed(tokens).Some? && ProfileAllowed(Parsed(tokens).value)
  }

  predicate ProfileAllowed(node: Node) {
    node.name == Name(LAN_SPACE, "LANProfile") && SaysOff(Descend(node, SWITCH_PATH))
  }

  predicate SaysOff(leaf: Option<Node>) {
    leaf.Some? && (leaf.value.text == "false" || leaf.value.text == "0")
  }

  /** The node is a field of the profile. */
  predicate Field(node: Node, parent: Node, name: string) {
    node in parent.children && node.name == Name(LAN_SPACE, name)
  }

  /** With distinct sibling names, a wired profile is allowed exactly if its MSM/security/OneXEnabled field says
      false. */
  lemma AllowedExactly(root: Node)
    requires UniqueNames(root)
    ensures ProfileAllowed(root) <==>
              && root.name == Name(LAN_SPACE, "LANProfile")
              && exists m, s, e :: Field(m, root, "MSM") && Field(s, m, "security") && Field(e, s, "OneXEnabled")
                                   && e.text in {"false", "0"}
  {
    hide UniqueNames, Child;
    SwitchIs(root);
    if ProfileAllowed(root) {
      var m := Child(root.children, Name(LAN_SPACE, "MSM")).value;
      var s := Child(m.children, Name(LAN_SPACE, "security")).value;
      var e := Child(s.children, Name(LAN_SPACE, "OneXEnabled")).value;
      assert Field(m, root, "MSM") && Field(s, m, "security") && Field(e, s, "OneXEnabled");
    }
    forall m, s, e | Field(m, root, "MSM") && Field(s, m, "security") && Field(e, s, "OneXEnabled")
      ensures Descend(root, SWITCH_PATH) == Some(e)
    {
      OnlyField(root, m, "MSM");
      OnlyField(m, s, "security");
      OnlyField(s, e, "OneXEnabled");
    }
  }

  /** Whatever else it says there, the profile is not allowed. */
  lemma OtherTextForbids(root: Node, m: Node, s: Node, e: Node)
    requires UniqueNames(root) && Field(m, root, "MSM") && Field(s, m, "security") && Field(e, s, "OneXEnabled")
    requires e.text !in {"false", "0"}
    ensures !ProfileAllowed(root)
  {
    AllowedExactly(root);
    hide UniqueNames, Child;
    SwitchIs(root);
    OnlyField(root, m, "MSM");
    OnlyField(m, s, "security");
    OnlyField(s, e, "OneXEnabled");
  }

  /** The path step by step. */
  lemma SwitchIs(root: Node)
    ensures Descend(root, SWITCH_PATH)
            == var m := Child(root.children, Name(LAN_SPACE, "MSM"));
               if m.None? then None
               else
                 var s := Child(m.value.children, Name(LAN_SPACE, "security"));
                 if s.None? then None else Child(s.value.children, Name(LAN_SPACE, "OneXEnabled"))
  {
    hide Child;
    assert ["MSM"] + ["security", "OneXEnabled"] == SWITCH_PATH;
    assert ["security"] + ["OneXEnabled"] == ["security", "OneXEnabled"];
    DescendStep(root, "MSM", ["security", "OneXEnabled"]);
    var m := Child(root.children, Name(LAN_SPACE, "MSM"));
    if m.Some? {
      DescendStep(m.value, "security", ["OneXEnabled"]);
      var s := Child(m.value.children, Name(LAN_SPACE, "security"));
      if s.Some? {
        DescendStep(s.value, "OneXEnabled", []);
      }
    }
  }

  lemma DescendStep(node: Node, name: string, rest: seq<string>)
    ensures Descend(node, [name] + rest)
            == var child := Child(node.children, Name(LAN_SPACE, name));
               if child.None? then None else Descend(child.value, rest)
  {
    assert ([name] + rest)[1..] == rest;
  }

  lemma OnlyField(parent: Node, node: Node, name: string)
    requires UniqueNames(parent) && Field(node, parent, name) && name != "TrustedRootCA"
    ensures Child(parent.children, node.name) == Some(node) && UniqueNames(node)
  {
    var i :| 0 <= i < |parent.children| && parent.children[i] == node;
    assert parent.children[i].name == node.name;
    var found := Child(parent.children, node.name);
    assert found.Some? && found.value.name == node.name;
    var k :| 0 <= k < |parent.children| && parent.children[k] == found.value;
    AllUniqueAt(parent.children, i);
    assert i == k;
  }

  lemma {:induction false} RearrangedPartner(f: Forms, xs: seq<Node>, ys: seq<Node>, i: nat) returns (j: nat)
    requires Rearranged(f, xs, ys) && i < |xs|
    ensures j < |ys| && Reordered(f, xs[i], ys[j])
    decreases |xs|
  {
    var k :| 0 <= k < |ys| && Reordered(f, xs[0], ys[k]) && Rearranged(f, xs[1..], Remove(ys, k));
    if i == 0 {
      j := k;
    } else {
      var below := RearrangedPartner(f, xs[1..], Remove(ys, k), i - 1);
      j := if below < k then below else below + 1;
    }
  }

  /** Reordered profiles have corresponding fields. */
  lemma ChildReordered(f: Forms, a: Node, b: Node, name: Name)
    requires f.Lawful() && Reordered(f, a, b) && UniqueNames(a) && UniqueNames(b)
    requires name.local != "TrustedRootCA"
    ensures Child(a.children, name).Some? <==> Child(b.children, name).Some?
    ensures Child(a.children, name).Some? ==>
              && Reordered(f, Child(a.children, name).value, Child(b.children, name).value)
              && UniqueNames(Child(a.children, name).value) && UniqueNames(Child(b.children, name).value)
  {
    ReorderingIsEquivalence(f, a, b, a);
    if Child(b.children, name).Some? {
      var i :| 0 <= i < |b.children| && b.children[i] == Child(b.children, name).value;
      var j := RearrangedPartner(f, b.children, a.children, i);
      AllUniqueAt(b.children, i);
    }
    if Child(a.children, name).Some? {
      var i :| 0 <= i < |a.children| && a.children[i] == Child(a.children, name).value;
      var j := RearrangedPartner(f, a.children, b.children, i);
      AllUniqueAt(a.children, i);
      var k :| 0 <= k < |b.children| && b.children[k] == Child(b.children, name).value;
      AllUniqueAt(b.children, k);
      assert b.children[j].name == b.children[k].name;
      assert j == k;
    }
  }

  lemma {:induction false} DescendReordered(f: Forms, a: Node, b: Node, path: seq<string>)
    requires f.Lawful() && Reordered(f, a, b) && UniqueNames(a) && UniqueNames(b)
    requires "TrustedRootCA" !in path
    ensures Descend(a, path).Some? <==> Descend(b, path).Some?
    ensures Descend(a, path).Some? ==> Reordered(f, Descend(a, path).value, Descend(b, path).value)
    ensures Descend(a, path).Some? && path != [] ==> Descend(a, path).value.name.local == path[|path| - 1]
    decreases |path|
  {
    hide Reordered, UniqueNames, Forms.Lawful;
    if path != [] {
      var name := Name(LAN_SPACE, path[0]);
      assert path[0] in path;
      ChildReordered(f, a, b, name);
      if Child(a.children, name).Some? {
        DescendReordered(f, Child(a.children, name).value, Child(b.children, name).value, path[1..]);
      }
    }
  }

  lemma PathNames()
    ensures "TrustedRootCA" !in SWITCH_PATH
    ensures SWITCH_PATH != [] && SWITCH_PATH[|SWITCH_PATH| - 1] == "OneXEnabled"
    ensures "OneXEnabled" !in HEX_FIELDS
  {
  }

  /** Matching is reordering, so it is an equivalence on the profiles that parse. */
  lemma MatchingIsReordering(f: Forms, a: seq<Token>, b: seq<Token>)
    requires f.Lawful()
    ensures Matches(f, a, b) <==>
            Parsed(a).Some? && Parsed(b).Some? && Reordered(f, Parsed(a).value, Parsed(b).value)
    ensures Matches(f, a, a) <==> Parsed(a).Some?
    ensures Matches(f, a, b) ==> Matches(f, b, a)
  {
    if Parsed(a).Some? && Parsed(b).Some? {
      CanonicalDecidesReordering(f, Parsed(a).value, Parsed(b).value);
    }
  }

  /** Matching profiles get the same baseline verdict. */
  lemma MatchingKeepsVerdict(f: Forms, a: seq<Token>, b: seq<Token>)
    requires f.Lawful() && Matches(f, a, b)
    ensures BaselineAllowed(a) <==> BaselineAllowed(b)
  {
    var x, y := Parsed(a).value, Parsed(b).value;
    ParsedUnique(a);
    ParsedUnique(b);
    CanonicalDecidesReordering(f, x, y);
    ReorderingKeepsVerdict(f, x, y);
  }

  lemma ReorderingKeepsVerdict(f: Forms, x: Node, y: Node)
    requires f.Lawful() && Reordered(f, x, y) && UniqueNames(x) && UniqueNames(y)
    ensures ProfileAllowed(x) <==> ProfileAllowed(y)
  {
    PathNames();
    DescendReordered(f, x, y, SWITCH_PATH);
  }

  // --- normal forms as values ---

  /** Two entries of a list that a rearrangement of it holds. */
  lemma PairAt<T(!new)>(xs: seq<T>, ys: seq<T>, i: nat, j: nat) returns (p: nat, q: nat)
    requires multiset(xs) == multiset(ys) && i < j < |ys|
    ensures p < |xs| && q < |xs| && p != q && xs[p] == ys[i] && xs[q] == ys[j]
  {
    var less := Remove(ys, j);
    MultisetWithout(ys, j);
    assert less[i] == ys[i];
    assert ys[j] in multiset(xs);
    q :| 0 <= q < |xs| && xs[q] == ys[j];
    MultisetWithout(xs, q);
    SameSum(multiset{ys[j]}, multiset(Remove(xs, q)), multiset(less));
    assert ys[i] in multiset(less);
    var k :| 0 <= k < |xs| - 1 && Remove(xs, q)[k] == ys[i];
    p := if k < q then k else k + 1;
  }

  lemma NoRepeatsRearranged(xs: seq<Node>, ys: seq<Node>)
    requires NoRepeats(xs) && multiset(xs) == multiset(ys)
    ensures NoRepeats(ys)
  {
    forall i, j | 0 <= i < j < |ys| && ys[i].name == ys[j].name
      ensures ys[j].name.local == "TrustedRootCA"
    {
      var p, q := PairAt(xs, ys, i, j);
      assert p < q || q < p;
    }
  }

  lemma AllUniqueIff(nodes: seq<Node>)
    ensures AllUnique(nodes) <==> forall i :: 0 <= i < |nodes| ==> UniqueNames(nodes[i])
    decreases |nodes|
  {
  }

  lemma {:induction false} NormalizeKeepsUnique(f: Forms, node: Node)
    requires UniqueNames(node)
    ensures UniqueNames(Normalize(f, node))
    decreases node
  {
    var children := NormalizeAll(f, node.children);
    var sorted := Sort(f.encode, children);
    AllUniqueIff(node.children);
    forall i | 0 <= i < |children|
      ensures UniqueNames(children[i])
    {
      NormalizeKeepsUnique(f, node.children[i]);
    }
    NoRepeatsRearranged(children, sorted);
    forall i | 0 <= i < |sorted|
      ensures UniqueNames(sorted[i])
    {
      assert sorted[i] in multiset(sorted);
      assert sorted[i] in multiset(children);
    }
    AllUniqueIff(sorted);
  }

  /** The verdict can be read off the normal form: matching profiles are one value. */
  lemma VerdictOnNormalForm(f: Forms, tokens: seq<Token>)
    requires f.Lawful() && Parsed(tokens).Some?
    ensures ProfileAllowed(Normalize(f, Parsed(tokens).value)) <==> BaselineAllowed(tokens)
  {
    var node := Parsed(tokens).value;
    ParsedUnique(tokens);
    NormalizeKeepsUnique(f, node);
    ReorderingIsEquivalence(f, node, node, node);
    ReorderingKeepsVerdict(f, node, Normalize(f, node));
  }
}
