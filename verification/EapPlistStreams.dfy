/** The property-list writer and reader as procedures over a token stream, and what any accepted
    readback costs. */
module EapPlistStreams {
  import opened Wrappers
  import opened Sequences
  import opened Sorting
  import opened EapPlist

  // --- every accepted readback is within the limits, and its calls are counted exactly ---

  lemma {:induction false} EntriesCostIgnoresOrder(v: Value, xs: seq<string>, ys: seq<string>)
    requires v.Dict? && (forall k :: k in xs ==> k in v.entries) && (forall k :: k in ys ==> k in v.entries)
    requires multiset(xs) == multiset(ys)
    ensures EntriesCost(v, xs) == EntriesCost(v, ys)
    decreases |xs|
  {
    hide Cost;
    if xs == [] {
      EmptyOnly(ys);
    } else {
      var j := PartnerOfFirst(xs, ys);
      MultisetWithout(xs, 0);
      MultisetWithout(ys, j);
      assert Remove(xs, 0) == xs[1..];
      SameSum(multiset{xs[0]}, multiset(xs[1..]), multiset(Remove(ys, j)));
      EntriesCostIgnoresOrder(v, xs[1..], Remove(ys, j));
      CostWithout(v, ys, j);
    }
  }

  lemma {:induction false} CostWithout(v: Value, ys: seq<string>, j: nat)
    requires v.Dict? && (forall k :: k in ys ==> k in v.entries) && j < |ys|
    ensures EntriesCost(v, ys) == 1 + Cost(v.entries[ys[j]]) + EntriesCost(v, Remove(ys, j))
    decreases |ys|
  {
    hide Cost;
    if j == 0 {
      assert Remove(ys, 0) == ys[1..];
    } else {
      CostWithout(v, ys[1..], j - 1);
      assert Remove(ys, j)[1..] == Remove(ys[1..], j - 1);
    }
  }

  lemma {:induction false} SameEntriesSameCost(v: Value, w: Value, keys: seq<string>)
    requires v.Dict? && w.Dict? && forall k :: k in keys ==>
               k in v.entries && k in w.entries && v.entries[k] == w.entries[k]
    ensures EntriesCost(v, keys) == EntriesCost(w, keys)
  {
    if keys != [] {
      SameEntriesSameCost(v, w, keys[1..]);
    }
  }

  /** A new key adds its own call and its value's. */
  lemma CostOfInsert(done: map<string, Value>, name: string, value: Value)
    requires name !in done
    ensures Cost(Dict(done[name := value])) == Cost(Dict(done)) + 1 + Cost(value)
  {
    var v, w := Dict(done), Dict(done[name := value]);
    var keys := KeysOf(v);
    assert w.entries.Keys == v.entries.Keys + {name};
    assert multiset([name] + keys) == multiset(KeysOf(w));
    EntriesCostIgnoresOrder(w, [name] + keys, KeysOf(w));
    assert ([name] + keys)[1..] == keys;
    SameEntriesSameCost(v, w, keys);
  }

  lemma CostOfNothing()
    ensures Cost(Dict(map[])) == 2
  {
  }

  lemma {:induction false} ItemsCostAppend(items: seq<Value>, item: Value)
    ensures ItemsCost(items + [item]) == ItemsCost(items) + Cost(item)
    decreases |items|
  {
    if items == [] {
      assert (items + [item])[1..] == [];
    } else {
      ItemsCostAppend(items[1..], item);
      assert (items + [item])[1..] == items[1..] + [item];
    }
  }

  /** What reading a value gives: the calls spent are the value's cost, and it is within the depth. */
  ghost predicate Counted(r: Reading, depth: nat, budget: nat) {
    && (r.outcome.Got? ==> Cost(r.outcome.value) + r.budget == budget && Shallow(r.outcome.value, depth))
    && (r.outcome.Closed? ==> depth <= MAX_DEPTH && r.budget + 1 == budget)
  }

  /** For every token stream, whoever produced it. */
  lemma {:induction false} NextCounts(c: Codec, tokens: seq<Token>, depth: nat, budget: nat)
    ensures Counted(Next(c, tokens, depth, budget), depth, budget)
    decreases budget, 0, 0
  {
    hide KeysOf;
    if depth <= MAX_DEPTH && budget > 0 {
      SeekCounts(c, tokens, depth, budget - 1);
    }
  }

  lemma {:induction false} SeekCounts(c: Codec, tokens: seq<Token>, depth: nat, budget: nat)
    requires depth <= MAX_DEPTH
    ensures Counted(Seek(c, tokens, depth, budget), depth, budget + 1)
    decreases budget, 2, |tokens|
  {
    hide KeysOf;
    if tokens != [] {
      match tokens[0]
      case Start(tag) =>
        if tag == DictTag {
          EntriesCount(c, tokens[1..], depth, budget, map[]);
          CostOfNothing();
        } else if tag == ArrayTag {
          ItemsCount(c, tokens[1..], depth, budget, []);
        }
      case Chars(_) => SeekCounts(c, tokens[1..], depth, budget);
      case Ignored => SeekCounts(c, tokens[1..], depth, budget);
      case _ =>
    }
  }

  ghost predicate DictCounted(r: Reading, depth: nat, budget: nat, done: map<string, Value>) {
    && !r.outcome.Closed?
    && (r.outcome.Got? ==>
          Cost(r.outcome.value) + r.budget + 1 == budget + Cost(Dict(done)) && Shallow(r.outcome.value, depth))
  }

  lemma {:induction false} EntriesCount(c: Codec, tokens: seq<Token>, depth: nat, budget: nat, done: map<string, Value>)
    requires forall k :: k in done ==> Shallow(done[k], depth + 1)
    ensures DictCounted(Entries(c, tokens, depth, budget, done), depth, budget, done)
    decreases budget, 1, 0
  {
    hide KeysOf;
    NextCounts(c, tokens, depth + 1, budget);
    var key := Next(c, tokens, depth + 1, budget);
    if key.outcome.Got? && key.outcome.value.Key? && key.outcome.value.name !in done {
      NextCounts(c, key.rest, depth + 1, key.budget);
      var value := Next(c, key.rest, depth + 1, key.budget);
      if value.outcome.Got? {
        CostOfInsert(done, key.outcome.value.name, value.outcome.value);
        EntriesCount(c, value.rest, depth, value.budget, done[key.outcome.value.name := value.outcome.value]);
      }
    }
  }

  ghost predicate ArrayCounted(r: Reading, depth: nat, budget: nat, done: seq<Value>) {
    && !r.outcome.Closed?
    && (r.outcome.Got? ==>
          Cost(r.outcome.value) + r.budget == budget + 1 + ItemsCost(done) && Shallow(r.outcome.value, depth))
  }

  lemma {:induction false} ItemsCount(c: Codec, tokens: seq<Token>, depth: nat, budget: nat, done: seq<Value>)
    requires forall i :: 0 <= i < |done| ==> Shallow(done[i], depth + 1)
    ensures ArrayCounted(Items(c, tokens, depth, budget, done), depth, budget, done)
    decreases budget, 1, 0
  {
    hide KeysOf;
    NextCounts(c, tokens, depth + 1, budget);
    var value := Next(c, tokens, depth + 1, budget);
    if value.outcome.Got? {
      ItemsCostAppend(done, value.outcome.value);
      ItemsCount(c, value.rest, depth, value.budget, done + [value.outcome.value]);
    }
  }

  /** Whatever the readback says, an accepted one is a dictionary within both limits. */
  lemma {:induction false} AcceptedIsLimited(c: Codec, tokens: seq<Token>)
    requires Parsed(c, tokens).Some?
    ensures Parsed(c, tokens).value.Dict? && Shallow(Parsed(c, tokens).value, 0)
              && Cost(Parsed(c, tokens).value) <= MAX_CALLS
    decreases |tokens|
  {
    hide KeysOf;
    if tokens[0].Start? {
      NextCounts(c, tokens[1..], 0, MAX_CALLS);
    } else {
      AcceptedIsLimited(c, tokens[1..]);
    }
  }

  // --- the reader ---

  /** The XML decoder's position and the calls left. */
  class Decoder {
    const codec: Codec
    const tokens: seq<Token>
    var cursor: nat
    var remaining: nat

    ghost predicate Valid()
      reads this
    {
      cursor <= |tokens|
    }

    ghost function Ahead(): seq<Token>
      reads this
      requires Valid()
    {
      tokens[cursor..]
    }

    /** The decoder stands where the reading ends. */
    ghost predicate Did(r: Reading, outcome: Outcome)
      reads this
      requires Valid()
    {
      outcome == r.outcome && (!outcome.Failed? ==> Ahead() == r.rest && remaining == r.budget)
    }

    constructor (codec: Codec, tokens: seq<Token>, cursor: nat)
      requires cursor <= |tokens|
      ensures Valid() && this.codec == codec && Ahead() == tokens[cursor..] && remaining == MAX_CALLS
    {
      this.codec, this.tokens, this.cursor, remaining := codec, tokens, cursor, MAX_CALLS;
    }

    method NextValue(depth: nat) returns (outcome: Outcome)
      requires Valid()
      modifies this
      ensures Valid() && remaining <= old(remaining)
      ensures Did(Next(codec, old(Ahead()), depth, old(remaining)), outcome)
      decreases remaining, 0
    {
      if depth > MAX_DEPTH || remaining == 0 {
        return Failed;
      }
      remaining := remaining - 1;
      while cursor < |tokens|
        invariant Valid() && remaining == old(remaining) - 1
        invariant Seek(codec, Ahead(), depth, remaining) == Seek(codec, old(Ahead()), depth, remaining)
      {
        var token := tokens[cursor];
        assert Ahead()[0] == token;
        assert tokens[cursor + 1..] == Ahead()[1..];
        cursor := cursor + 1;
        match token {
          case Fault => return Failed;
          case End => return Closed;
          case Start(tag) =>
            if tag == DictTag {
              outcome := ReadEntries(depth);
            } else if tag == ArrayTag {
              outcome := ReadItems(depth);
            } else {
              outcome := ReadLeaf(tag);
            }
            return;
          case _ =>
        }
      }
      outcome := Failed;
    }

    method ReadEntries(depth: nat) returns (outcome: Outcome)
      requires Valid()
      modifies this
      ensures Valid() && remaining <= old(remaining)
      ensures Did(Entries(codec, old(Ahead()), depth, old(remaining), map[]), outcome)
      decreases remaining, 1
    {
      var result: map<string, Value> := map[];
      while true
        invariant Valid() && remaining <= old(remaining)
        invariant Entries(codec, Ahead(), depth, remaining, result)
                    == Entries(codec, old(Ahead()), depth, old(remaining), map[])
        decreases remaining
      {
        var key := NextValue(depth + 1);
        if key.Closed? {
          return Got(Dict(result));
        }
        if key.Failed? || !key.value.Key? || key.value.name in result {
          return Failed;
        }
        var value := NextValue(depth + 1);
        if !value.Got? {
          return Failed;
        }
        result := result[key.value.name := value.value];
      }
    }

    method ReadItems(depth: nat) returns (outcome: Outcome)
      requires Valid()
      modifies this
      ensures Valid() && remaining <= old(remaining)
      ensures Did(Items(codec, old(Ahead()), depth, old(remaining), []), outcome)
      decreases remaining, 1
    {
      var result: seq<Value> := [];
      while true
        invariant Valid() && remaining <= old(remaining)
        invariant Items(codec, Ahead(), depth, remaining, result)
                    == Items(codec, old(Ahead()), depth, old(remaining), [])
        decreases remaining
      {
        var item := NextValue(depth + 1);
        if item.Closed? {
          return Got(Array(result));
        }
        if item.Failed? {
          return Failed;
        }
        result := result + [item.value];
      }
    }

    method ReadLeaf(tag: Tag) returns (outcome: Outcome)
      requires Valid()
      modifies this`cursor
      ensures Valid()
      ensures Did(LeafReading(codec, tag, LeafText(old(Ahead()), 0, ""), remaining), outcome)
    {
      var level, text := 0, "";
      while cursor < |tokens|
        invariant Valid()
        invariant LeafText(Ahead(), level, text) == LeafText(old(Ahead()), 0, "")
      {
        var token := tokens[cursor];
        assert Ahead()[0] == token;
        assert tokens[cursor + 1..] == Ahead()[1..];
        cursor := cursor + 1;
        match token {
          case Fault => return Failed;
          case Start(_) => level := level + 1;
          case Chars(more) =>
            if level == 0 {
              text := text + more;
            }
          case End =>
            if level == 0 {
              var value := LeafValue(codec, tag, text);
              return if value.Some? then Got(value.value) else Failed;
            }
            level := level - 1;
          case Ignored =>
        }
      }
      outcome := Failed;
    }

    /** Inside the plist element: one dictionary, then nothing but ends. */
    method ReadBody() returns (result: Option<Value>)
      requires Valid() && remaining == MAX_CALLS
      modifies this
      ensures result == PlistBody(codec, old(Ahead()))
    {
      hide Next, Trails;
      var value := NextValue(0);
      if !value.Got? || !value.value.Dict? {
        return None;
      }
      var sound := OnlyEnds(tokens, cursor);
      result := if sound then Some(value.value) else None;
    }
  }

  lemma ParsedAt(c: Codec, tokens: seq<Token>, i: nat)
    requires i < |tokens|
    ensures Parsed(c, tokens[i..]) ==
            match tokens[i]
            case Start(tag) => if tag == PlistTag then PlistBody(c, tokens[i + 1..]) else None
            case End => None
            case Fault => None
            case _ => Parsed(c, tokens[i + 1..])
  {
  }

  lemma ParsedEmpty(c: Codec, tokens: seq<Token>)
    requires |tokens| == 0
    ensures Parsed(c, tokens).None?
  {
  }

  /** A whole readback. */
  method ParsePlist(codec: Codec, tokens: seq<Token>) returns (result: Option<Value>)
    ensures result == Parsed(codec, tokens)
  {
    hide PlistBody, Parsed;
    var i := 0;
    while i < |tokens|
      invariant 0 <= i <= |tokens|
      invariant Parsed(codec, tokens[i..]) == Parsed(codec, tokens)
    {
      ParsedAt(codec, tokens, i);
      match tokens[i] {
        case Start(tag) =>
          if tag != PlistTag {
            return None;
          }
          var decoder := new Decoder(codec, tokens, i + 1);
          result := decoder.ReadBody();
          return;
        case End => return None;
        case Fault => return None;
        case _ =>
      }
      i := i + 1;
    }
    ParsedEmpty(codec, tokens[i..]);
    result := None;
  }

  /** The loop after the dictionary. */
  method OnlyEnds(tokens: seq<Token>, start: nat) returns (sound: bool)
    requires start <= |tokens|
    ensures sound == Trails(tokens[start..], 1)
  {
    var open, i := 1, start;
    while i < |tokens|
      invariant start <= i <= |tokens|
      invariant Trails(tokens[i..], open) == Trails(tokens[start..], 1)
    {
      assert tokens[i..][1..] == tokens[i + 1..];
      match tokens[i] {
        case Start(_) => return false;
        case Fault => return false;
        case End =>
          if open == 0 {
            return false;
          }
          open := open - 1;
        case _ =>
      }
      i := i + 1;
    }
    sound := open == 0;
  }

  // --- the writer ---

  lemma LeafTokensAppend(tag: Tag, text: string, a: seq<Token>, b: seq<Token>)
    ensures LeafTokens(tag, text, a + b) == LeafTokens(tag, text, a) + b
  {
  }

  /** Writing appends: what follows the value does not change its tokens. */
  lemma {:induction false} TokensAppend(c: Codec, v: Value, a: seq<Token>, b: seq<Token>)
    ensures Tokens(c, v, a + b) == Tokens(c, v, a) + b
    decreases Cost(v), 1, if v.Strings? then 1 else 0
  {
    hide KeysOf;
    assert [End] + (a + b) == ([End] + a) + b;
    match v
    case Dict(_) =>
      CostInOrder(v);
      EntriesTokensAppend(c, InOrder(v), [End] + a, b);
    case Array(items) => ItemsTokensAppend(c, items, [End] + a, b);
    case Strings(texts) =>
      StringsAsItems(texts);
      TokensAppend(c, Array(Texts(texts)), a, b);
    case Data(bytes) => LeafTokensAppend(DataTag, c.showData(bytes), a, b);
    case Text(text) => LeafTokensAppend(StringTag, Escaped(text), a, b);
    case Int(number) => LeafTokensAppend(IntegerTag, c.showInt(number), a, b);
    case Bool(flag) => LeafTokensAppend(if flag then TrueTag else FalseTag, "", a, b);
    case _ =>
  }

  lemma {:induction false} EntriesTokensAppend(c: Codec, list: seq<Entry>, a: seq<Token>, b: seq<Token>)
    ensures EntriesTokens(c, list, a + b) == EntriesTokens(c, list, a) + b
    decreases ListCost(list) + 1, 0, 0
  {
    if list != [] {
      EntriesTokensAppend(c, list[1..], a, b);
      TokensAppend(c, list[0].value, EntriesTokens(c, list[1..], a), b);
      LeafTokensAppend(KeyTag, Escaped(list[0].name), Tokens(c, list[0].value, EntriesTokens(c, list[1..], a)), b);
    }
  }

  lemma {:induction false} ItemsTokensAppend(c: Codec, items: seq<Value>, a: seq<Token>, b: seq<Token>)
    ensures ItemsTokens(c, items, a + b) == ItemsTokens(c, items, a) + b
    decreases ItemsCost(items) + 1, 0, 0
  {
    if items != [] {
      ItemsTokensAppend(c, items[1..], a, b);
      TokensAppend(c, items[0], ItemsTokens(c, items[1..], a), b);
    }
  }

  lemma TokensThen(c: Codec, v: Value, rest: seq<Token>)
    ensures Tokens(c, v, rest) == Tokens(c, v, []) + rest
  {
    TokensAppend(c, v, [], rest);
    assert [] + rest == rest;
  }

  lemma {:induction false} ItemsTokensSnoc(c: Codec, items: seq<Value>, item: Value)
    ensures ItemsTokens(c, items + [item], []) == ItemsTokens(c, items, []) + Tokens(c, item, [])
    decreases |items|
  {
    hide Tokens;
    FirstItem(c, items + [item]);
    if items == [] {
      assert (items + [item])[1..] == [];
    } else {
      ItemsTokensSnoc(c, items[1..], item);
      assert (items + [item])[1..] == items[1..] + [item];
      FirstItem(c, items);
    }
  }

  lemma FirstItem(c: Codec, items: seq<Value>)
    requires items != []
    ensures ItemsTokens(c, items, []) == Tokens(c, items[0], []) + ItemsTokens(c, items[1..], [])
  {
    TokensThen(c, items[0], ItemsTokens(c, items[1..], []));
  }

  lemma {:induction false} ItemsCostAt(items: seq<Value>, i: nat)
    requires i < |items|
    ensures Cost(items[i]) <= ItemsCost(items)
    decreases |items|
  {
    hide Cost;
    if i > 0 {
      ItemsCostAt(items[1..], i - 1);
    }
  }

  lemma {:induction false} ListCostAt(list: seq<Entry>, i: nat)
    requires i < |list|
    ensures Cost(list[i].value) < ListCost(list)
    decreases |list|
  {
    hide Cost;
    if i > 0 {
      ListCostAt(list[1..], i - 1);
    }
  }

  function KeyTokens(name: string): seq<Token> {
    LeafTokens(KeyTag, Escaped(name), [])
  }

  lemma {:induction false} EntriesTokensSnoc(c: Codec, list: seq<Entry>, e: Entry)
    ensures EntriesTokens(c, list + [e], []) == EntriesTokens(c, list, []) + KeyTokens(e.name) + Tokens(c, e.value, [])
    decreases |list|
  {
    hide Tokens, Cost, KeyTokens;
    if list == [] {
      assert (list + [e])[1..] == [];
      FirstEntry(c, list + [e]);
    } else {
      EntriesTokensSnoc(c, list[1..], e);
      assert (list + [e])[1..] == list[1..] + [e];
      FirstEntry(c, list + [e]);
      FirstEntry(c, list);
    }
  }

  lemma FirstEntry(c: Codec, list: seq<Entry>)
    requires list != []
    ensures EntriesTokens(c, list, [])
              == KeyTokens(list[0].name) + Tokens(c, list[0].value, []) + EntriesTokens(c, list[1..], [])
  {
    hide Tokens, Cost, Escaped, LeafTokens;
    var more := EntriesTokens(c, list[1..], []);
    TokensThen(c, list[0].value, more);
    KeyThen(list[0].name, Tokens(c, list[0].value, []), more);
  }

  lemma KeyThen(name: string, a: seq<Token>, b: seq<Token>)
    ensures LeafTokens(KeyTag, Escaped(name), a + b) == KeyTokens(name) + a + b
  {
  }

  /** Sorting the keys in whatever order the map gives them is the byte order. */
  lemma SortedKeysAreInOrder(v: Value, keys: seq<string>)
    requires v.Dict? && multiset(keys) == multiset(v.entries.Keys)
    ensures Sort(Same, keys) == KeysOf(v)
    ensures forall k :: k in Sort(Same, keys) ==> k in v.entries
  {
    SameIsInjective();
    SortIgnoresOrder(Same, keys, ListOf(v.entries.Keys));
    assert forall k :: k in KeysOf(v) ==> k in v.entries;
  }

  /** The keys of a map, in no particular order. */
  method CollectKeys(entries: map<string, Value>) returns (keys: seq<string>)
    ensures multiset(keys) == multiset(entries.Keys)
  {
    keys := [];
    var left := entries.Keys;
    while left != {}
      invariant left <= entries.Keys && multiset(keys) + multiset(left) == multiset(entries.Keys)
      decreases |left|
    {
      var key :| key in left;
      assert multiset(left) == multiset{key} + multiset(left - {key});
      keys, left := keys + [key], left - {key};
    }
  }

  /** Appends the value to the output, or refuses a value that is not writable. */
  method WriteValue(c: Codec, output: seq<Token>, value: Value) returns (ok: bool, written: seq<Token>)
    ensures ok <==> Writable(value)
    ensures ok ==> written == output + Tokens(c, value, [])
    decreases Cost(value), if value.Strings? then 1 else 0, 1
  {
    match value {
      case Dict(entries) =>
        ok, written := WriteEntries(c, output + [Start(DictTag)], value);
        if !ok { return; }
        CloseContainer(c, output, value);
        written := written + [End];
      case Array(items) =>
        ok, written := WriteItems(c, output + [Start(ArrayTag)], value);
        if !ok { return; }
        CloseContainer(c, output, value);
        written := written + [End];
      case Strings(texts) =>
        var values := [];
        for i := 0 to |texts|
          invariant values == Texts(texts[..i])
        {
          values := values + [Text(texts[i])];
        }
        assert texts[..|texts|] == texts;
        StringsAsItems(texts);
        ok, written := WriteValue(c, output, Array(values));
      case Data(bytes) => return true, output + LeafTokens(DataTag, c.showData(bytes), []);
      case Text(text) => return true, output + LeafTokens(StringTag, Escaped(text), []);
      case Int(number) => return true, output + LeafTokens(IntegerTag, c.showInt(number), []);
      case Bool(flag) => return true, output + LeafTokens(if flag then TrueTag else FalseTag, "", []);
      case _ => return false, output;
    }
  }

  lemma CloseContainer(c: Codec, output: seq<Token>, v: Value)
    ensures v.Dict? ==>
              output + Tokens(c, v, []) == output + [Start(DictTag)] + EntriesTokens(c, InOrder(v), []) + [End]
    ensures v.Array? ==> output + Tokens(c, v, []) == output + [Start(ArrayTag)] + ItemsTokens(c, v.items, []) + [End]
  {
    hide InOrder, Cost;
    assert [End] + [] == [] + [End];
    if v.Dict? {
      EntriesTokensAppend(c, InOrder(v), [], [End]);
    } else if v.Array? {
      ItemsTokensAppend(c, v.items, [], [End]);
    }
  }

  /** The entries of a dictionary, its keys sorted. */
  method SortedEntries(value: Value) returns (list: seq<Entry>)
    requires value.Dict?
    ensures list == InOrder(value)
  {
    var keys := CollectKeys(value.entries);
    SortedKeysAreInOrder(value, keys);
    keys := Sort(Same, keys);
    list := seq(|keys|, i requires 0 <= i < |keys| => Entry(keys[i], value.entries[keys[i]]));
    assert list == EntriesOf(value, keys);
  }

  method WriteEntries(c: Codec, output: seq<Token>, value: Value) returns (ok: bool, written: seq<Token>)
    requires value.Dict?
    ensures ok <==> Writable(value)
    ensures ok ==> written == output + EntriesTokens(c, InOrder(value), [])
    decreases Cost(value), 0, 0
  {
    hide Tokens, Cost, EntriesTokens, KeyTokens, InOrder;
    NoEntries(c);
    var list := SortedEntries(value);
    CostInOrder(value);
    written := output;
    assert list[..0] == [];
    for i := 0 to |list|
      invariant forall k :: 0 <= k < i ==> Writable(list[k].value)
      invariant written == output + EntriesTokens(c, list[..i], [])
    {
      ListCostAt(list, i);
      ok, written := WriteEntry(c, written, list[i]);
      if !ok {
        return;
      }
      EntryWritten(c, output, list, i);
    }
    assert list[..|list|] == list;
    AllWritable(value, list);
    ok := true;
  }

  lemma NoEntries(c: Codec)
    ensures EntriesTokens(c, [], []) == [] && ItemsTokens(c, [], []) == []
  {
  }

  lemma EntryWritten(c: Codec, output: seq<Token>, list: seq<Entry>, i: nat)
    requires i < |list|
    ensures output + EntriesTokens(c, list[..i], []) + KeyTokens(list[i].name) + Tokens(c, list[i].value, []) ==
            output + EntriesTokens(c, list[..i + 1], [])
  {
    hide *;
    EntriesTokensSnoc(c, list[..i], list[i]);
    assert list[..i + 1] == list[..i] + [list[i]];
  }

  lemma ItemWritten(c: Codec, output: seq<Token>, items: seq<Value>, i: nat)
    requires i < |items|
    ensures output + ItemsTokens(c, items[..i], []) + Tokens(c, items[i], [])
              == output + ItemsTokens(c, items[..i + 1], [])
  {
    hide *;
    ItemsTokensSnoc(c, items[..i], items[i]);
    assert items[..i + 1] == items[..i] + [items[i]];
  }

  lemma AllWritable(v: Value, list: seq<Entry>)
    requires v.Dict? && ListsAll(v, list) && forall i :: 0 <= i < |list| ==> Writable(list[i].value)
    ensures Writable(v)
  {
    forall k | k in v.entries ensures Writable(v.entries[k]) {
      assert Mentions(list, k);
    }
  }

  method WriteEntry(c: Codec, output: seq<Token>, e: Entry) returns (ok: bool, written: seq<Token>)
    ensures ok <==> Writable(e.value)
    ensures ok ==> written == output + KeyTokens(e.name) + Tokens(c, e.value, [])
    decreases Cost(e.value), 2, 0
  {
    hide *;
    ok, written := WriteValue(c, output + KeyTokens(e.name), e.value);
  }

  method WriteItems(c: Codec, output: seq<Token>, value: Value) returns (ok: bool, written: seq<Token>)
    requires value.Array?
    ensures ok <==> Writable(value)
    ensures ok ==> written == output + ItemsTokens(c, value.items, [])
    decreases Cost(value), 0, 0
  {
    hide Tokens, KeysOf, ItemsTokens;
    NoEntries(c);
    var items := value.items;
    written := output;
    for i := 0 to |items|
      invariant forall k :: 0 <= k < i ==> Writable(items[k])
      invariant written == output + ItemsTokens(c, items[..i], [])
    {
      ItemsCostAt(items, i);
      ok, written := WriteValue(c, written, items[i]);
      if !ok {
        return;
      }
      ItemWritten(c, output, items, i);
    }
    assert items[..|items|] == items;
    ok := true;
  }

  /** Writing a whole profile and reading it back. */
  method MarshalPlist(c: Codec, value: Value) returns (ok: bool, document: seq<Token>)
    ensures ok <==> Writable(value)
    ensures ok ==> document == Document(c, value)
  {
    ok, document := WriteValue(c, [Ignored, Chars("\n"), Start(PlistTag)], value);
    if ok {
      TokensThen(c, value, TAIL);
      document := document + TAIL;
    }
  }
}
