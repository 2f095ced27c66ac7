/** Apple property lists: the EAP profile writer, and the budgeted recursive reader of readbacks. */
module EapPlist {
  import opened Wrappers
  import opened Sorting

  newtype Int64 = x: int | -0x8000_0000_0000_0000 <= x < 0x8000_0000_0000_0000
  newtype Byte = x: int | 0 <= x < 256

  /** What the writer accepts (Strings is a plain list of strings) and what the reader returns (Key and
      Real as well, which the writer refuses). */
  datatype Value =
    | Dict(entries: map<string, Value>)
    | Array(items: seq<Value>)
    | Strings(texts: seq<string>)
    | Data(bytes: seq<Byte>)
    | Text(text: string)
    | Int(number: Int64)
    | Bool(flag: bool)
    | Key(name: string)
    | Real(digits: string)

  datatype Tag =
    | PlistTag | DictTag | ArrayTag | KeyTag | StringTag | DateTag | IntegerTag | TrueTag | FalseTag | DataTag | RealTag
    | OtherTag

  /** What the XML decoder delivers. Ignored is a comment, directive or processing instruction; Fault is
      a syntax error. */
  datatype Token = Start(tag: Tag) | Chars(text: string) | End | Ignored | Fault

  const MAX_DEPTH := 32
  const MAX_CALLS := 32768

  /** The conversions of leaf text, spaces around numbers and inside base64 already ignored. */
  datatype Codec = Codec(showInt: Int64 -> string, parseInt: string -> Option<Int64>,
                         showData: seq<Byte> -> string, parseData: string -> Option<seq<Byte>>,
                         isReal: string -> bool)
  {
    ghost predicate Lawful() {
      && (forall n {:trigger showInt(n)} :: parseInt(showInt(n)) == Some(n) && XmlText(showInt(n)))
      && (forall b {:trigger showData(b)} :: parseData(showData(b)) == Some(b) && XmlText(showData(b)))
    }
  }

  // --- text ---

  /** The characters XML 1.0 allows (section 2.2). */
  predicate XmlChar(c: char) {
    || c == '\t' || c == '\n' || c == '\r'
    || ' ' <= c <= '\U{D7FF}' || '\U{E000}' <= c <= '\U{FFFD}' || '\U{10000}' <= c <= '\U{10FFFF}'
  }

  predicate XmlText(s: string) {
    forall i :: 0 <= i < |s| ==> XmlChar(s[i])
  }

  /** Escaping, as it reads back: characters XML does not allow become the replacement character. */
  function Escaped(s: string): (r: string)
    ensures XmlText(r)
    ensures r == s <==> XmlText(s)
  {
    var r := seq(|s|, i requires 0 <= i < |s| => if XmlChar(s[i]) then s[i] else '\U{FFFD}');
    assert r == s ==> forall i :: 0 <= i < |s| ==> r[i] == s[i];
    r
  }

  // --- keys in order ---

  ghost function ListOf(keys: set<string>): (r: seq<string>)
    ensures multiset(r) == multiset(keys)
  {
    if keys == {} then []
    else
      var k :| k in keys;
      assert multiset(keys) == multiset{k} + multiset(keys - {k});
      [k] + ListOf(keys - {k})
  }

  function Same(s: string): string { s }

  lemma SameIsInjective()
    ensures Injective(Same)
  {
  }

  /** The keys in byte order. */
  ghost function Ascending(keys: set<string>): (r: seq<string>)
    ensures multiset(r) == multiset(keys)
  {
    Sort(Same, ListOf(keys))
  }

  lemma SameMembers(list: seq<string>, keys: set<string>)
    requires multiset(list) == multiset(keys)
    ensures forall k :: k in list <==> k in keys
    ensures forall i, j :: 0 <= i < j < |list| ==> list[i] != list[j]
  {
    assert forall k :: k in list <==> k in multiset(list);
    forall i, j | 0 <= i < j < |list|
      ensures list[i] != list[j]
    {
      assert list == list[..i] + [list[i]] + list[i + 1..];
      assert list[j] in multiset(list[i + 1..]);
      assert list[i] == list[j] ==> multiset(list)[list[i]] >= 2;
      assert list[i] in multiset(list);
    }
  }

  ghost function KeysOf(v: Value): (r: seq<string>)
    requires v.Dict?
    ensures multiset(r) == multiset(v.entries.Keys)
    ensures forall k :: k in r ==> k in v.entries
  {
    SameMembers(Ascending(v.entries.Keys), v.entries.Keys);
    Ascending(v.entries.Keys)
  }

  datatype Entry = Entry(name: string, value: Value)

  ghost function EntriesOf(v: Value, keys: seq<string>): (r: seq<Entry>)
    requires v.Dict? && forall k :: k in keys ==> k in v.entries
    ensures |r| == |keys| && forall i :: 0 <= i < |keys| ==> r[i] == Entry(keys[i], v.entries[keys[i]])
  {
    seq(|keys|, i requires 0 <= i < |keys| => Entry(keys[i], v.entries[keys[i]]))
  }

  /** The entries in byte order of their keys. */
  ghost function InOrder(v: Value): (r: seq<Entry>)
    requires v.Dict?
    ensures ListsAll(v, r)
  {
    var r := EntriesOf(v, KeysOf(v));
    SameMembers(KeysOf(v), v.entries.Keys);
    assert forall k :: k in v.entries ==> Mentions(r, k) by {
      forall k | k in v.entries ensures Mentions(r, k) {
        var i :| 0 <= i < |KeysOf(v)| && KeysOf(v)[i] == k;
        assert r[i].name == k;
      }
    }
    r
  }

  /** The list holds each entry of the dictionary once and nothing else. */
  ghost predicate ListsAll(v: Value, list: seq<Entry>)
    requires v.Dict?
  {
    && DistinctNames(list)
    && (forall i :: 0 <= i < |list| ==> list[i].name in v.entries && list[i].value == v.entries[list[i].name])
    && (forall k {:trigger Mentions(list, k)} :: k in v.entries ==> Mentions(list, k))
  }

  ghost predicate Mentions(list: seq<Entry>, name: string) {
    exists i :: 0 <= i < |list| && list[i].name == name
  }

  ghost predicate DistinctNames(list: seq<Entry>) {
    forall i, j :: 0 <= i < j < |list| ==> list[i].name != list[j].name
  }

  // --- measures ---

  /** Reader calls: one for a leaf; a container adds one closing probe, a dictionary one for each key. */
  ghost function Cost(v: Value): (r: nat)
    ensures r >= 1
    decreases v, 1, 0
  {
    match v
    case Dict(_) => 2 + EntriesCost(v, KeysOf(v))
    case Array(items) => 2 + ItemsCost(items)
    case Strings(texts) => 2 + |texts|
    case _ => 1
  }

  ghost function EntriesCost(v: Value, keys: seq<string>): nat
    requires v.Dict? && forall k :: k in keys ==> k in v.entries
    decreases v, 0, |keys|
  {
    if keys == [] then 0 else 1 + Cost(v.entries[keys[0]]) + EntriesCost(v, keys[1..])
  }

  ghost function ListCost(list: seq<Entry>): nat {
    if list == [] then 0 else 1 + Cost(list[0].value) + ListCost(list[1..])
  }

  lemma {:induction false} EntriesCostIsListCost(v: Value, keys: seq<string>)
    requires v.Dict? && forall k :: k in keys ==> k in v.entries
    ensures EntriesCost(v, keys) == ListCost(EntriesOf(v, keys))
  {
    if keys != [] {
      EntriesCostIsListCost(v, keys[1..]);
      assert EntriesOf(v, keys)[1..] == EntriesOf(v, keys[1..]);
    }
  }

  lemma CostInOrder(v: Value)
    requires v.Dict?
    ensures Cost(v) == 2 + ListCost(InOrder(v))
  {
    EntriesCostIsListCost(v, KeysOf(v));
  }

  ghost function ItemsCost(items: seq<Value>): nat
    decreases items, 0, 0
  {
    if items == [] then 0 else Cost(items[0]) + ItemsCost(items[1..])
  }

  /** Leaves at most 32 deep and containers at most 31, counting from the given depth. */
  predicate Shallow(v: Value, depth: nat) {
    match v
    case Dict(entries) => depth < MAX_DEPTH && forall k :: k in entries ==> Shallow(entries[k], depth + 1)
    case Array(items) => depth < MAX_DEPTH && forall i :: 0 <= i < |items| ==> Shallow(items[i], depth + 1)
    case Strings(texts) => depth < MAX_DEPTH
    case _ => depth <= MAX_DEPTH
  }

  /** All text and keys survive escaping. */
  predicate XmlValue(v: Value) {
    match v
    case Dict(entries) => forall k :: k in entries ==> XmlText(k) && XmlValue(entries[k])
    case Array(items) => forall i :: 0 <= i < |items| ==> XmlValue(items[i])
    case Strings(texts) => forall i :: 0 <= i < |texts| ==> XmlText(texts[i])
    case Text(text) => XmlText(text)
    case Key(name) => XmlText(name)
    case _ => true
  }

  predicate Writable(v: Value) {
    match v
    case Dict(entries) => forall k :: k in entries ==> Writable(entries[k])
    case Array(items) => forall i :: 0 <= i < |items| ==> Writable(items[i])
    case Key(_) => false
    case Real(_) => false
    case _ => true
  }

  function Texts(texts: seq<string>): seq<Value> {
    seq(|texts|, i requires 0 <= i < |texts| => Text(texts[i]))
  }

  /** The value with string lists as lists: what reading gives back. */
  function Listed(v: Value): Value
    decreases v, 1
  {
    match v
    case Dict(entries) => Dict(map k | k in entries :: Listed(entries[k]))
    case Array(items) => Array(ListedAll(items))
    case Strings(texts) => Array(Texts(texts))
    case _ => v
  }

  function ListedAll(items: seq<Value>): (r: seq<Value>)
    ensures |r| == |items| && forall i :: 0 <= i < |items| ==> r[i] == Listed(items[i])
    decreases items, 0
  {
    if items == [] then [] else [Listed(items[0])] + ListedAll(items[1..])
  }

  /** A string list is written, counted and measured as the list of its strings. */
  lemma StringsAsItems(texts: seq<string>)
    ensures Cost(Array(Texts(texts))) == Cost(Strings(texts))
    ensures forall d :: Shallow(Array(Texts(texts)), d) <==> Shallow(Strings(texts), d)
    ensures XmlValue(Array(Texts(texts))) <==> XmlValue(Strings(texts))
    ensures Writable(Array(Texts(texts)))
    ensures Listed(Array(Texts(texts))) == Array(Texts(texts))
  {
    ItemsCostOfTexts(texts);
    var items := Texts(texts);
    assert ListedAll(items) == items;
    if XmlValue(Array(items)) {
      forall i | 0 <= i < |texts| ensures XmlText(texts[i]) {
        assert XmlValue(items[i]);
      }
    }
  }

  lemma {:induction false} ItemsCostOfTexts(texts: seq<string>)
    ensures ItemsCost(Texts(texts)) == |texts|
    decreases |texts|
  {
    if texts != [] {
      ItemsCostOfTexts(texts[1..]);
      assert Texts(texts)[1..] == Texts(texts[1..]);
    }
  }

  // --- the writer: the tokens of a value, followed by the rest of the stream ---

  function LeafTokens(tag: Tag, text: string, rest: seq<Token>): seq<Token> {
    [Start(tag)] + if text == "" then [End] + rest else [Chars(text)] + ([End] + rest)
  }

  /** A Key or a Real writes nothing: the writer refuses them. */
  ghost function Tokens(c: Codec, v: Value, rest: seq<Token>): seq<Token>
    decreases Cost(v), 1, if v.Strings? then 1 else 0
  {
    match v
    case Dict(_) =>
      CostInOrder(v);
      [Start(DictTag)] + EntriesTokens(c, InOrder(v), [End] + rest)
    case Array(items) => [Start(ArrayTag)] + ItemsTokens(c, items, [End] + rest)
    case Strings(texts) =>
      StringsAsItems(texts);
      Tokens(c, Array(Texts(texts)), rest)
    case Data(bytes) => LeafTokens(DataTag, c.showData(bytes), rest)
    case Text(text) => LeafTokens(StringTag, Escaped(text), rest)
    case Int(number) => LeafTokens(IntegerTag, c.showInt(number), rest)
    case Bool(flag) => LeafTokens(if flag then TrueTag else FalseTag, "", rest)
    case _ => rest
  }

  ghost function EntriesTokens(c: Codec, list: seq<Entry>, rest: seq<Token>): seq<Token>
    decreases ListCost(list) + 1, 0, 0
  {
    if list == [] then rest
    else LeafTokens(KeyTag, Escaped(list[0].name), Tokens(c, list[0].value, EntriesTokens(c, list[1..], rest)))
  }

  ghost function ItemsTokens(c: Codec, items: seq<Value>, rest: seq<Token>): seq<Token>
    decreases ItemsCost(items) + 1, 0, 0
  {
    if items == [] then rest else Tokens(c, items[0], ItemsTokens(c, items[1..], rest))
  }

  /** A whole profile: the XML header, the plist element and its value. */
  ghost function Document(c: Codec, v: Value): seq<Token> {
    [Ignored, Chars("\n"), Start(PlistTag)] + Tokens(c, v, TAIL)
  }

  // --- the reader ---

  datatype Outcome = Got(value: Value) | Closed | Failed

  datatype Reading = Reading(outcome: Outcome, rest: seq<Token>, budget: nat)

  datatype Leaf = Leaf(text: string, rest: seq<Token>)

  /** The text directly inside an element up to its end, skipping nested elements. */
  function LeafText(tokens: seq<Token>, level: nat, text: string): Option<Leaf>
    decreases |tokens|
  {
    if tokens == [] then None
    else match tokens[0]
      case Start(_) => LeafText(tokens[1..], level + 1, text)
      case Chars(more) => LeafText(tokens[1..], level, if level == 0 then text + more else text)
      case End => if level == 0 then Some(Leaf(text, tokens[1..])) else LeafText(tokens[1..], level - 1, text)
      case Ignored => LeafText(tokens[1..], level, text)
      case Fault => None
  }

  function LeafValue(c: Codec, tag: Tag, text: string): Option<Value> {
    match tag
    case KeyTag => Some(Key(text))
    case StringTag => Some(Text(text))
    case DateTag => Some(Text(text))
    case IntegerTag => if c.parseInt(text).Some? then Some(Int(c.parseInt(text).value)) else None
    case TrueTag => Some(Bool(true))
    case FalseTag => Some(Bool(false))
    case DataTag => if c.parseData(text).Some? then Some(Data(c.parseData(text).value)) else None
    case RealTag => if c.isReal(text) then Some(Real(text)) else None
    case _ => None
  }

  /** One reader call. The tokens end early only inside an open element, which the decoder reports. */
  function Next(c: Codec, tokens: seq<Token>, depth: nat, budget: nat): (r: Reading)
    ensures r.budget <= budget && (!r.outcome.Failed? ==> r.budget < budget)
    decreases budget, 0, 0
  {
    if depth > MAX_DEPTH || budget == 0 then Reading(Failed, tokens, budget) else Seek(c, tokens, depth, budget - 1)
  }

  function Seek(c: Codec, tokens: seq<Token>, depth: nat, budget: nat): (r: Reading)
    ensures r.budget <= budget
    decreases budget, 2, |tokens|
  {
    if tokens == [] then Reading(Failed, tokens, budget)
    else match tokens[0]
      case End => Reading(Closed, tokens[1..], budget)
      case Fault => Reading(Failed, tokens, budget)
      case Start(tag) =>
        if tag == DictTag then Entries(c, tokens[1..], depth, budget, map[])
        else if tag == ArrayTag then Items(c, tokens[1..], depth, budget, [])
        else LeafReading(c, tag, LeafText(tokens[1..], 0, ""), budget)
      case _ => Seek(c, tokens[1..], depth, budget)
  }

  function LeafReading(c: Codec, tag: Tag, leaf: Option<Leaf>, budget: nat): Reading {
    if leaf.None? || LeafValue(c, tag, leaf.value.text).None? then Reading(Failed, [], budget)
    else Reading(Got(LeafValue(c, tag, leaf.value.text).value), leaf.value.rest, budget)
  }

  function Entries(c: Codec, tokens: seq<Token>, depth: nat, budget: nat, done: map<string, Value>): (r: Reading)
    ensures r.budget <= budget
    decreases budget, 1, 0
  {
    var key := Next(c, tokens, depth + 1, budget);
    if key.outcome.Closed? then Reading(Got(Dict(done)), key.rest, key.budget)
    else if key.outcome.Failed? || !key.outcome.value.Key? || key.outcome.value.name in done then
      Reading(Failed, key.rest, key.budget)
    else
      var value := Next(c, key.rest, depth + 1, key.budget);
      if !value.outcome.Got? then Reading(Failed, value.rest, value.budget)
      else Entries(c, value.rest, depth, value.budget, done[key.outcome.value.name := value.outcome.value])
  }

  function Items(c: Codec, tokens: seq<Token>, depth: nat, budget: nat, done: seq<Value>): (r: Reading)
    ensures r.budget <= budget
    decreases budget, 1, 0
  {
    var value := Next(c, tokens, depth + 1, budget);
    match value.outcome
    case Closed => Reading(Got(Array(done)), value.rest, value.budget)
    case Failed => Reading(Failed, value.rest, value.budget)
    case Got(item) => Items(c, value.rest, depth, value.budget, done + [item])
  }

  /** After the dictionary: no further element, and every element closed. */
  predicate Trails(tokens: seq<Token>, open: nat)
    decreases |tokens|
  {
    if tokens == [] then open == 0
    else match tokens[0]
      case Start(_) => false
      case Fault => false
      case End => open > 0 && Trails(tokens[1..], open - 1)
      case _ => Trails(tokens[1..], open)
  }

  /** A whole readback: the plist element holds one dictionary and nothing else. */
  function Parsed(c: Codec, tokens: seq<Token>): Option<Value>
    decreases |tokens|
  {
    if tokens == [] then None
    else match tokens[0]
      case Start(tag) =>
        if tag != PlistTag then None
        else PlistBody(c, tokens[1..])
      case End => None
      case Fault => None
      case _ => Parsed(c, tokens[1..])
  }

  function PlistBody(c: Codec, tokens: seq<Token>): Option<Value> {
    var r := Next(c, tokens, 0, MAX_CALLS);
    if r.outcome.Got? && r.outcome.value.Dict? && Trails(r.rest, 1) then Some(r.outcome.value) else None
  }

  // --- reading what was written ---

  lemma ReadLeaf(c: Codec, tag: Tag, text: string, depth: nat, budget: nat, rest: seq<Token>)
    requires tag != DictTag && tag != ArrayTag
    ensures Next(c, LeafTokens(tag, text, rest), depth, budget) ==
            if depth > MAX_DEPTH || budget == 0 then Reading(Failed, LeafTokens(tag, text, rest), budget)
            else LeafReading(c, tag, Some(Leaf(text, rest)), budget - 1)
  {
    var tokens := LeafTokens(tag, text, rest);
    assert ([End] + rest)[1..] == rest;
    if text == "" {
      assert tokens[1..] == [End] + rest;
    } else {
      assert tokens[1..] == [Chars(text)] + ([End] + rest);
      assert ([Chars(text)] + ([End] + rest))[1..] == [End] + rest;
      assert "" + text == text;
      assert LeafText([End] + rest, 0, text) == Some(Leaf(text, rest));
    }
  }

  /** A leaf element reads as text for a string or date, a flag, a number, data, or the text of a real; a number, data
      or real that does not parse, like any other element, is refused. */
  lemma LeavesRead(c: Codec, tag: Tag, text: string, depth: nat, budget: nat, rest: seq<Token>)
    requires tag !in {DictTag, ArrayTag, KeyTag} && depth <= MAX_DEPTH && budget > 0
    ensures var read := Next(c, LeafTokens(tag, text, rest), depth, budget);
            match tag
            case StringTag => read == Reading(Got(Text(text)), rest, budget - 1)
            case DateTag => read == Reading(Got(Text(text)), rest, budget - 1)
            case TrueTag => read == Reading(Got(Bool(true)), rest, budget - 1)
            case FalseTag => read == Reading(Got(Bool(false)), rest, budget - 1)
            case IntegerTag =>
              if c.parseInt(text).None? then read.outcome.Failed?
              else read == Reading(Got(Int(c.parseInt(text).value)), rest, budget - 1)
            case DataTag =>
              if c.parseData(text).None? then read.outcome.Failed?
              else read == Reading(Got(Data(c.parseData(text).value)), rest, budget - 1)
            case RealTag =>
              if c.isReal(text) then read == Reading(Got(Real(text)), rest, budget - 1) else read.outcome.Failed?
            case _ => read.outcome.Failed?
  {
    hide Next, LeafTokens, LeafText;
    ReadLeaf(c, tag, text, depth, budget, rest);
  }

  /** The closing tag of a container is one probe at the next depth. */
  lemma ReadEnd(c: Codec, depth: nat, budget: nat, rest: seq<Token>)
    ensures Next(c, [End] + rest, depth, budget) ==
            if depth > MAX_DEPTH || budget == 0 then Reading(Failed, [End] + rest, budget)
            else Reading(Closed, rest, budget - 1)
  {
  }

  lemma ReadOpen(c: Codec, tag: Tag, body: seq<Token>, depth: nat, budget: nat)
    requires tag == DictTag || tag == ArrayTag
    ensures Next(c, [Start(tag)] + body, depth, budget) ==
            if depth > MAX_DEPTH || budget == 0 then Reading(Failed, [Start(tag)] + body, budget)
            else if tag == DictTag then Entries(c, body, depth, budget - 1, map[])
            else Items(c, body, depth, budget - 1, [])
  {
  }

  /** Reading gives the value, uses exactly the cost and stops at the rest; or, if it does not fit, fails. */
  ghost predicate ReadsAs(r: Reading, fits: bool, value: Value, rest: seq<Token>, budget: nat, cost: nat) {
    if fits && cost <= budget then r == Reading(Got(value), rest, budget - cost) else r.outcome.Failed?
  }

  ghost predicate ReadsBack(c: Codec, v: Value, depth: nat, budget: nat, rest: seq<Token>) {
    ReadsAs(Next(c, Tokens(c, v, rest), depth, budget), Shallow(v, depth), Listed(v), rest, budget, Cost(v))
  }

  ghost predicate ItemsReadBack(c: Codec, items: seq<Value>, depth: nat, budget: nat, done: seq<Value>,
                                rest: seq<Token>) {
    ReadsAs(Items(c, ItemsTokens(c, items, [End] + rest), depth, budget, done), ItemsShallow(items, depth),
            Array(done + ListedAll(items)), rest, budget, ItemsCost(items) + 1)
  }

  ghost predicate EntriesReadBack(c: Codec, list: seq<Entry>, depth: nat, budget: nat, done: map<string, Value>,
                                  rest: seq<Token>) {
    ReadsAs(Entries(c, EntriesTokens(c, list, [End] + rest), depth, budget, done), ListShallow(list, depth),
            Dict(ListedOver(list, done)), rest, budget, ListCost(list) + 1)
  }

  ghost predicate ItemsShallow(items: seq<Value>, depth: nat) {
    depth < MAX_DEPTH && forall i :: 0 <= i < |items| ==> Shallow(items[i], depth + 1)
  }

  ghost predicate ListShallow(list: seq<Entry>, depth: nat) {
    depth < MAX_DEPTH && forall i :: 0 <= i < |list| ==> Shallow(list[i].value, depth + 1)
  }

  /** The entries added to a map one after the other. */
  ghost function ListedOver(list: seq<Entry>, done: map<string, Value>): map<string, Value>
    decreases |list|
  {
    if list == [] then done else ListedOver(list[1..], done[list[0].name := Listed(list[0].value)])
  }

  /** The reader inverts the writer exactly within the depth and call limits. */
  lemma {:induction false} ReadWritten(c: Codec, v: Value, depth: nat, budget: nat, rest: seq<Token>)
    requires c.Lawful() && Writable(v) && XmlValue(v)
    ensures ReadsBack(c, v, depth, budget, rest)
    decreases Cost(v), 1, if v.Strings? then 1 else 0
  {
    hide KeysOf;
    if v.Dict? {
      ReadDict(c, v, depth, budget, rest);
    } else if v.Array? {
      if budget > 0 {
        ReadItems(c, v.items, depth, budget - 1, [], rest);
      }
      WholeArray(c, v, depth, budget, rest);
    } else if v.Strings? {
      StringsAsItems(v.texts);
      ReadWritten(c, Array(Texts(v.texts)), depth, budget, rest);
    } else {
      ReadPlain(c, v, depth, budget, rest);
    }
  }

  lemma {:induction false} ReadDict(c: Codec, v: Value, depth: nat, budget: nat, rest: seq<Token>)
    requires c.Lawful() && Writable(v) && XmlValue(v) && v.Dict?
    ensures ReadsBack(c, v, depth, budget, rest)
    decreases Cost(v), 0, 0
  {
    hide *;
    CostInOrder(v);
    EntriesClean(v, InOrder(v));
    var none: map<string, Value> := map[];
    if budget > 0 {
      ReadEntries(c, InOrder(v), depth, budget - 1, none, rest);
    }
    WholeDict(c, v, depth, budget, none, rest);
  }

  lemma EntriesClean(v: Value, list: seq<Entry>)
    requires v.Dict? && Writable(v) && XmlValue(v) && ListsAll(v, list)
    ensures DistinctNames(list)
    ensures forall i :: 0 <= i < |list| ==> Writable(list[i].value) && XmlValue(list[i].value) && XmlText(list[i].name)
  {
  }

  lemma ReadPlain(c: Codec, v: Value, depth: nat, budget: nat, rest: seq<Token>)
    requires c.Lawful() && Writable(v) && XmlValue(v)
    requires !v.Dict? && !v.Array? && !v.Strings?
    ensures ReadsBack(c, v, depth, budget, rest)
  {
    hide KeysOf, InOrder;
    match v
    case Data(bytes) => ReadLeaf(c, DataTag, c.showData(bytes), depth, budget, rest);
    case Text(text) => ReadLeaf(c, StringTag, Escaped(text), depth, budget, rest);
    case Int(number) => ReadLeaf(c, IntegerTag, c.showInt(number), depth, budget, rest);
    case Bool(flag) => ReadLeaf(c, if flag then TrueTag else FalseTag, "", depth, budget, rest);
  }

  lemma WholeArray(c: Codec, v: Value, depth: nat, budget: nat, rest: seq<Token>)
    requires v.Array? && (budget > 0 ==> ItemsReadBack(c, v.items, depth, budget - 1, [], rest))
    ensures ReadsBack(c, v, depth, budget, rest)
  {
    ReadOpen(c, ArrayTag, ItemsTokens(c, v.items, [End] + rest), depth, budget);
    assert [] + ListedAll(v.items) == ListedAll(v.items);
  }

  lemma WholeDict(c: Codec, v: Value, depth: nat, budget: nat, none: map<string, Value>, rest: seq<Token>)
    requires v.Dict? && none == map[]
    requires budget > 0 ==> EntriesReadBack(c, InOrder(v), depth, budget - 1, none, rest)
    ensures ReadsBack(c, v, depth, budget, rest)
  {
    ReadOpen(c, DictTag, EntriesTokens(c, InOrder(v), [End] + rest), depth, budget);
    CostInOrder(v);
    ListedWholly(v, InOrder(v), none);
    ShallowWholly(v, InOrder(v), depth);
  }

  lemma ListedWholly(v: Value, list: seq<Entry>, none: map<string, Value>)
    requires v.Dict? && none == map[] && ListsAll(v, list)
    ensures Listed(v) == Dict(ListedOver(list, none))
  {
    ListedOverAt(list, none);
    forall k | k in v.entries
      ensures k in ListedOver(list, none) && ListedOver(list, none)[k] == Listed(v.entries[k])
    {
      assert Mentions(list, k);
    }
    assert ListedOver(list, none) == Listed(v).entries;
  }

  lemma {:induction false} ListedOverAt(list: seq<Entry>, done: map<string, Value>)
    requires DistinctNames(list) && forall i :: 0 <= i < |list| ==> list[i].name !in done
    ensures var r := ListedOver(list, done);
            && (forall k :: k in done ==> k in r && r[k] == done[k])
            && (forall i :: 0 <= i < |list| ==> list[i].name in r && r[list[i].name] == Listed(list[i].value))
            && (forall k :: k in r ==> k in done || Mentions(list, k))
    decreases |list|
  {
    if list != [] {
      var more := done[list[0].name := Listed(list[0].value)];
      ListedOverAt(list[1..], more);
      var r := ListedOver(list, done);
      forall i | 0 <= i < |list|
        ensures list[i].name in r && r[list[i].name] == Listed(list[i].value)
      {
        if i == 0 {
          assert list[0].name in more;
        } else {
          assert list[i] == list[1..][i - 1];
        }
      }
      forall k | k in r && k !in done
        ensures Mentions(list, k)
      {
        if k in more {
          assert list[0].name == k;
        } else {
          var i :| 0 <= i < |list[1..]| && list[1..][i].name == k;
          assert list[i + 1].name == k;
        }
      }
    }
  }

  lemma ShallowWholly(v: Value, list: seq<Entry>, depth: nat)
    requires v.Dict? && ListsAll(v, list)
    ensures Shallow(v, depth) <==> ListShallow(list, depth)
  {
    if ListShallow(list, depth) {
      forall k | k in v.entries ensures Shallow(v.entries[k], depth + 1) {
        assert Mentions(list, k);
      }
    }
  }

  lemma {:induction false} ReadItems(c: Codec, items: seq<Value>, depth: nat, budget: nat, done: seq<Value>,
                                     rest: seq<Token>)
    requires c.Lawful()
    requires forall i :: 0 <= i < |items| ==> Writable(items[i]) && XmlValue(items[i])
    ensures ItemsReadBack(c, items, depth, budget, done, rest)
    decreases ItemsCost(items) + 1, 0, 0
  {
    hide KeysOf, Writable, XmlValue, ReadsBack, Cost;
    if items == [] {
      ReadEnd(c, depth + 1, budget, rest);
      assert done + [] == done;
    } else {
      ReadWritten(c, items[0], depth + 1, budget, ItemsTokens(c, items[1..], [End] + rest));
      if Cost(items[0]) <= budget {
        ReadItems(c, items[1..], depth, budget - Cost(items[0]), done + [Listed(items[0])], rest);
      }
      NextItem(c, items, depth, budget, done, rest);
    }
  }

  lemma NextItem(c: Codec, items: seq<Value>, depth: nat, budget: nat, done: seq<Value>, rest: seq<Token>)
    requires items != [] && ReadsBack(c, items[0], depth + 1, budget, ItemsTokens(c, items[1..], [End] + rest))
    requires Cost(items[0]) <= budget ==>
               ItemsReadBack(c, items[1..], depth, budget - Cost(items[0]), done + [Listed(items[0])], rest)
    ensures ItemsReadBack(c, items, depth, budget, done, rest)
  {
    assert items == [items[0]] + items[1..];
    assert done + [Listed(items[0])] + ListedAll(items[1..]) == done + ListedAll(items);
  }

  lemma {:induction false} ReadEntries(c: Codec, list: seq<Entry>, depth: nat, budget: nat, done: map<string, Value>,
                                       rest: seq<Token>)
    requires c.Lawful()
    requires forall i :: 0 <= i < |list| ==> Writable(list[i].value) && XmlValue(list[i].value) && XmlText(list[i].name)
    requires DistinctNames(list) && forall i :: 0 <= i < |list| ==> list[i].name !in done
    ensures EntriesReadBack(c, list, depth, budget, done, rest)
    decreases ListCost(list) + 1, 0, 0
  {
    hide KeysOf;
    if list == [] {
      ReadEnd(c, depth + 1, budget, rest);
    } else {
      var value := list[0].value;
      if budget > 0 {
        ReadWritten(c, value, depth + 1, budget - 1, EntriesTokens(c, list[1..], [End] + rest));
      }
      if 1 + Cost(value) <= budget {
        ReadEntries(c, list[1..], depth, budget - 1 - Cost(value), done[list[0].name := Listed(value)], rest);
      }
      NextEntry(c, list, depth, budget, done, rest);
    }
  }

  lemma NextEntry(c: Codec, list: seq<Entry>, depth: nat, budget: nat, done: map<string, Value>, rest: seq<Token>)
    requires list != [] && XmlText(list[0].name) && list[0].name !in done
    requires budget > 0 ==>
               ReadsBack(c, list[0].value, depth + 1, budget - 1, EntriesTokens(c, list[1..], [End] + rest))
    requires 1 + Cost(list[0].value) <= budget ==>
               EntriesReadBack(c, list[1..], depth, budget - 1 - Cost(list[0].value),
                               done[list[0].name := Listed(list[0].value)], rest)
    ensures EntriesReadBack(c, list, depth, budget, done, rest)
  {
    hide KeysOf;
    var name, value, after := list[0].name, list[0].value, EntriesTokens(c, list[1..], [End] + rest);
    ListSplit(list, depth);
    EntriesStep(c, name, Tokens(c, value, after), depth, budget, done,
      Shallow(value, depth + 1), Listed(value), after, Cost(value));
  }

  lemma ListSplit(list: seq<Entry>, depth: nat)
    requires list != []
    ensures ListShallow(list, depth) <==>
              depth < MAX_DEPTH && Shallow(list[0].value, depth + 1) && ListShallow(list[1..], depth)
  {
  }

  lemma EntriesStep(c: Codec, key: string, tokens: seq<Token>, depth: nat, budget: nat, done: map<string, Value>,
                    fits: bool, value: Value, after: seq<Token>, cost: nat)
    requires XmlText(key) && key !in done
    requires budget > 0 ==> ReadsAs(Next(c, tokens, depth + 1, budget - 1), fits, value, after, budget - 1, cost)
    ensures var r := Entries(c, LeafTokens(KeyTag, Escaped(key), tokens), depth, budget, done);
            if depth < MAX_DEPTH && fits && 1 + cost <= budget then
              r == Entries(c, after, depth, budget - 1 - cost, done[key := value])
            else r.outcome.Failed?
  {
    ReadLeaf(c, KeyTag, key, depth + 1, budget, tokens);
  }

  // --- text the reader returns was in the document ---

  ghost predicate CleanTokens(tokens: seq<Token>) {
    forall i :: 0 <= i < |tokens| && tokens[i].Chars? ==> XmlText(tokens[i].text)
  }

  lemma CleanTail(tokens: seq<Token>)
    requires CleanTokens(tokens) && tokens != []
    ensures CleanTokens(tokens[1..])
  {
  }

  lemma {:induction false} LeafTextClean(tokens: seq<Token>, level: nat, text: string)
    requires CleanTokens(tokens) && XmlText(text)
    ensures var r := LeafText(tokens, level, text);
            r.Some? ==> XmlText(r.value.text) && CleanTokens(r.value.rest)
    decreases |tokens|
  {
    if tokens != [] {
      CleanTail(tokens);
      var more := if tokens[0].Chars? && level == 0 then text + tokens[0].text else text;
      assert XmlText(more);
      match tokens[0]
      case Start(_) => LeafTextClean(tokens[1..], level + 1, text);
      case End => if level > 0 { LeafTextClean(tokens[1..], level - 1, text); }
      case Fault =>
      case _ => LeafTextClean(tokens[1..], level, more);
    }
  }

  ghost predicate ReadClean(r: Reading) {
    && (!r.outcome.Failed? ==> CleanTokens(r.rest))
    && (r.outcome.Got? ==> XmlValue(r.outcome.value))
  }

  lemma {:induction false} NextClean(c: Codec, tokens: seq<Token>, depth: nat, budget: nat)
    requires CleanTokens(tokens)
    ensures ReadClean(Next(c, tokens, depth, budget))
    decreases budget, 0, 0
  {
    if depth <= MAX_DEPTH && budget > 0 {
      SeekClean(c, tokens, depth, budget - 1);
    }
  }

  lemma {:induction false} SeekClean(c: Codec, tokens: seq<Token>, depth: nat, budget: nat)
    requires CleanTokens(tokens)
    ensures ReadClean(Seek(c, tokens, depth, budget))
    decreases budget, 2, |tokens|
  {
    if tokens != [] {
      CleanTail(tokens);
      match tokens[0]
      case Start(tag) =>
        EntriesReadClean(c, tokens[1..], depth, budget, map[]);
        ItemsReadClean(c, tokens[1..], depth, budget, []);
        LeafTextClean(tokens[1..], 0, "");
      case Chars(_) => SeekClean(c, tokens[1..], depth, budget);
      case Ignored => SeekClean(c, tokens[1..], depth, budget);
      case _ =>
    }
  }

  lemma {:induction false} EntriesReadClean(c: Codec, tokens: seq<Token>, depth: nat, budget: nat,
                                            done: map<string, Value>)
    requires CleanTokens(tokens) && XmlValue(Dict(done))
    ensures ReadClean(Entries(c, tokens, depth, budget, done))
    decreases budget, 1, 0
  {
    NextClean(c, tokens, depth + 1, budget);
    var key := Next(c, tokens, depth + 1, budget);
    if key.outcome.Got? && key.outcome.value.Key? && key.outcome.value.name !in done {
      NextClean(c, key.rest, depth + 1, key.budget);
      var value := Next(c, key.rest, depth + 1, key.budget);
      if value.outcome.Got? {
        EntriesReadClean(c, value.rest, depth, value.budget, done[key.outcome.value.name := value.outcome.value]);
      }
    }
  }

  lemma {:induction false} ItemsReadClean(c: Codec, tokens: seq<Token>, depth: nat, budget: nat, done: seq<Value>)
    requires CleanTokens(tokens) && XmlValue(Array(done))
    ensures ReadClean(Items(c, tokens, depth, budget, done))
    decreases budget, 1, 0
  {
    NextClean(c, tokens, depth + 1, budget);
    var value := Next(c, tokens, depth + 1, budget);
    if value.outcome.Got? {
      ItemsReadClean(c, value.rest, depth, value.budget, done + [value.outcome.value]);
    }
  }

  // --- what is written is clean ---

  lemma LeafTokensClean(tag: Tag, text: string, rest: seq<Token>)
    requires XmlText(text) && CleanTokens(rest)
    ensures CleanTokens(LeafTokens(tag, text, rest))
  {
  }

  lemma {:induction false} TokensClean(c: Codec, v: Value, rest: seq<Token>)
    requires c.Lawful() && CleanTokens(rest)
    ensures CleanTokens(Tokens(c, v, rest))
    decreases Cost(v), 1, if v.Strings? then 1 else 0
  {
    match v
    case Dict(_) =>
      CostInOrder(v);
      EntriesTokensClean(c, InOrder(v), [End] + rest);
    case Array(items) => ItemsTokensClean(c, items, [End] + rest);
    case Strings(texts) =>
      StringsAsItems(texts);
      TokensClean(c, Array(Texts(texts)), rest);
    case Data(bytes) => LeafTokensClean(DataTag, c.showData(bytes), rest);
    case Text(text) => LeafTokensClean(StringTag, Escaped(text), rest);
    case Int(number) => LeafTokensClean(IntegerTag, c.showInt(number), rest);
    case Bool(flag) => LeafTokensClean(if flag then TrueTag else FalseTag, "", rest);
    case _ =>
  }

  lemma {:induction false} EntriesTokensClean(c: Codec, list: seq<Entry>, rest: seq<Token>)
    requires c.Lawful() && CleanTokens(rest)
    ensures CleanTokens(EntriesTokens(c, list, rest))
    decreases ListCost(list) + 1, 0, 0
  {
    if list != [] {
      EntriesTokensClean(c, list[1..], rest);
      TokensClean(c, list[0].value, EntriesTokens(c, list[1..], rest));
      LeafTokensClean(KeyTag, Escaped(list[0].name), Tokens(c, list[0].value, EntriesTokens(c, list[1..], rest)));
    }
  }

  lemma {:induction false} ItemsTokensClean(c: Codec, items: seq<Value>, rest: seq<Token>)
    requires c.Lawful() && CleanTokens(rest)
    ensures CleanTokens(ItemsTokens(c, items, rest))
    decreases ItemsCost(items) + 1, 0, 0
  {
    if items != [] {
      ItemsTokensClean(c, items[1..], rest);
      TokensClean(c, items[0], ItemsTokens(c, items[1..], rest));
    }
  }

  lemma {:induction false} ListedKeepsText(v: Value)
    ensures XmlValue(Listed(v)) <==> XmlValue(v)
  {
    match v
    case Dict(entries) =>
      forall k | k in entries ensures XmlValue(Listed(entries[k])) <==> XmlValue(entries[k]) {
        ListedKeepsText(entries[k]);
      }
      assert forall k :: k in entries ==> Listed(v).entries[k] == Listed(entries[k]);
    case Array(items) =>
      forall i | 0 <= i < |items| ensures XmlValue(Listed(items[i])) <==> XmlValue(items[i]) {
        ListedKeepsText(items[i]);
      }
      assert forall i :: 0 <= i < |items| ==> Listed(v).items[i] == Listed(items[i]);
    case Strings(texts) => StringsAsItems(texts);
    case _ =>
  }

  // --- whole documents ---

  const TAIL := [End, Chars("\n")]

  lemma ParsedDocument(c: Codec, v: Value)
    ensures var r := Next(c, Tokens(c, v, TAIL), 0, MAX_CALLS);
            && (r.outcome.Got? && r.outcome.value.Dict? && r.rest == TAIL ==>
              Parsed(c, Document(c, v)) == Some(r.outcome.value))
            && (Parsed(c, Document(c, v)).Some? ==>
              r.outcome == Got(Parsed(c, Document(c, v)).value) && r.outcome.value.Dict?)
  {
    var tokens := Tokens(c, v, TAIL);
    SkipHeader(c, tokens);
    assert Trails(TAIL, 1) by {
      assert TAIL[1..] == [Chars("\n")];
      assert TAIL[1..][1..] == [];
    }
  }

  lemma SkipHeader(c: Codec, tokens: seq<Token>)
    ensures Parsed(c, [Ignored, Chars("\n"), Start(PlistTag)] + tokens) == Parsed(c, [Start(PlistTag)] + tokens)
    ensures ([Start(PlistTag)] + tokens)[1..] == tokens
  {
    var document := [Ignored, Chars("\n"), Start(PlistTag)] + tokens;
    assert document[1..][1..] == [Start(PlistTag)] + tokens;
    assert Parsed(c, document) == Parsed(c, document[1..]);
    assert document[1..][0] == Chars("\n");
  }

  /** For every writable value: the document reads back as the value, string lists as lists, exactly if it
      is a dictionary of clean text within the depth and call limits. Clean values beyond them are refused. */
  lemma RoundTrip(c: Codec, v: Value)
    requires c.Lawful() && Writable(v)
    ensures Parsed(c, Document(c, v)) == Some(Listed(v)) <==>
            v.Dict? && XmlValue(v) && Shallow(v, 0) && Cost(v) <= MAX_CALLS
    ensures XmlValue(v) && !(v.Dict? && Shallow(v, 0) && Cost(v) <= MAX_CALLS) ==> Parsed(c, Document(c, v)).None?
  {
    hide KeysOf;
    ParsedDocument(c, v);
    if XmlValue(v) {
      ReadWritten(c, v, 0, MAX_CALLS, TAIL);
    } else {
      TokensClean(c, v, TAIL);
      NextClean(c, Tokens(c, v, TAIL), 0, MAX_CALLS);
      ListedKeepsText(v);
    }
  }
}
