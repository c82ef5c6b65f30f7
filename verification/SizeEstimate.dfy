/** The cache's size estimate: a worklist over a JSON tree against its recursive cost. */
module SizeEstimate {
  import opened Basics
  import opened Json

  const NODE: nat := 24

  /** Bytes of a string in UTF-8. */
  function Utf8Len(s: string): nat {
    if s == "" then 0
    else
      var code := s[0] as int;
      (if code < 0x80 then 1 else if code < 0x800 then 2 else if code < 0x1_0000 then 3 else 4) + Utf8Len(s[1..])
  }

  function PowerOfTwo(n: nat): nat {
    if n == 0 then 1 else 2 * PowerOfTwo(n - 1)
  }

  /** How many bits of a code point n bytes carry (section 3 of RFC 3629). */
  function PayloadBits(n: nat): nat
    requires 1 <= n <= 4
  {
    if n == 1 then 7 else 7 - n + 6 * (n - 1)
  }

  /** A character takes the fewest bytes that carry its code point, and a string the sum of them. */
  lemma {:induction false} Utf8LenReads(c: char, n: nat, a: string, b: string)
    requires 1 <= n <= 4
    ensures Utf8Len([c]) == n <==>
              && (c as int) < PowerOfTwo(PayloadBits(n))
              && (n == 1 || c as int >= PowerOfTwo(PayloadBits(n - 1)))
    ensures Utf8Len(a + b) == Utf8Len(a) + Utf8Len(b)
  {
    assert PowerOfTwo(5) == 32;
    assert PowerOfTwo(7) == 128 && PowerOfTwo(11) == 64 * PowerOfTwo(5);
    assert PowerOfTwo(16) == 32 * PowerOfTwo(11) && PowerOfTwo(21) == 32 * PowerOfTwo(16);
    assert [c][1..] == [];
    if a == [] {
      assert a + b == b;
    } else {
      assert (a + b)[1..] == a[1..] + b;
      Utf8LenReads(c, n, a[1..], b);
    }
  }

  function KeyCost(key: string): nat {
    Utf8Len(key) + NODE + 8
  }

  /** The cost of a whole tree, by recursion on the tree. */
  ghost function Cost(v: Value): nat
    decreases v, 1
  {
    match v
    case String(text) => NODE + Utf8Len(text)
    case Array(items) => NODE + 8 * |items| + CostOf(items)
    case Object(fields) => NODE + FieldsCost(v, fields.Keys)
    case _ => NODE
  }

  ghost function CostOf(items: seq<Value>): nat
    decreases items, 0
  {
    if items == [] then 0 else CostOf(items[..|items| - 1]) + Cost(items[|items| - 1])
  }

  /** The cost of some fields of an object, picked in any order. */
  ghost function FieldsCost(v: Value, keys: set<string>): nat
    requires v.Object? && keys <= v.fields.Keys
    decreases v, 0, |keys|
  {
    if keys == {} then 0
    else
      var k :| k in keys;
      KeyCost(k) + Cost(v.fields[k]) + FieldsCost(v, keys - {k})
  }

  /** The order the fields are added up in does not matter. */
  lemma {:induction false} FieldsCostAnyOrder(v: Value, keys: set<string>, key: string)
    requires v.Object? && keys <= v.fields.Keys && key in keys
    ensures FieldsCost(v, keys) == KeyCost(key) + Cost(v.fields[key]) + FieldsCost(v, keys - {key})
    decreases |keys|
  {
    var k :| k in keys && FieldsCost(v, keys) == KeyCost(k) + Cost(v.fields[k]) + FieldsCost(v, keys - {k});
    if k != key {
      FieldsCostAnyOrder(v, keys - {k}, key);
      FieldsCostAnyOrder(v, keys - {key}, k);
      assert keys - {k} - {key} == keys - {key} - {k};
    }
  }

  lemma {:induction false} CostOfConcat(a: seq<Value>, b: seq<Value>)
    ensures CostOf(a + b) == CostOf(a) + CostOf(b)
  {
    if b == [] {
      assert a + b == a;
    } else {
      assert (a + b)[..|a + b| - 1] == a + b[..|b| - 1];
      CostOfConcat(a, b[..|b| - 1]);
    }
  }

  /**
   The explicit stack terminates on every tree, and its saturating total is the smaller of the
   largest `usize` and the recursive cost.
   */
  method EstimateSize(document: Value) returns (total: nat)
    ensures total == Min(U64_MAX, Cost(document))
  {
    hide FieldsCost, Utf8Len;
    total := 0;
    var stack := [document];
    assert stack[..0] == [] && CostOf(stack) == Cost(document);
    while stack != []
      invariant total <= U64_MAX
      invariant Min(U64_MAX, total + CostOf(stack)) == Min(U64_MAX, Cost(document))
      decreases CostOf(stack)
    {
      var value := stack[|stack| - 1];
      var rest := stack[..|stack| - 1];
      assert CostOf(stack) == CostOf(rest) + Cost(value);
      stack := rest;
      total := SaturatingAdd(total, NODE);
      match value
      case String(text) => total := SaturatingAdd(total, Utf8Len(text));
      case Array(items) =>
        total := SaturatingAdd(total, |items| * 8);
        CostOfConcat(stack, items);
        stack := stack + items;
      case Object(fields) =>
        total, stack := PushFields(value, total, stack);
      case _ =>
    }
  }

  lemma PushedCost(node: Value, keys: set<string>, key: string, pushed: seq<Value>)
    requires node.Object? && keys <= node.fields.Keys && key in keys
    ensures CostOf(pushed + [node.fields[key]]) + FieldsCost(node, keys - {key}) + KeyCost(key)
         == CostOf(pushed) + FieldsCost(node, keys)
  {
    FieldsCostAnyOrder(node, keys, key);
    assert (pushed + [node.fields[key]])[..|pushed|] == pushed;
    hide FieldsCost;
  }

  lemma NoFieldsCost(node: Value)
    requires node.Object?
    ensures FieldsCost(node, {}) == 0
  {
  }

  /** Push every field of an object, charging its key. */
  method PushFields(node: Value, charged: nat, stack: seq<Value>) returns (total: nat, pushed: seq<Value>)
    requires node.Object? && charged <= U64_MAX
    ensures total <= U64_MAX
    ensures Min(U64_MAX, total + CostOf(pushed)) ==
              Min(U64_MAX, charged + CostOf(stack) + FieldsCost(node, node.fields.Keys))
    ensures CostOf(pushed) <= CostOf(stack) + FieldsCost(node, node.fields.Keys)
  {
    hide CostOf, FieldsCost, Utf8Len, Cost;
    total, pushed := charged, stack;
    NoFieldsCost(node);
    var keys := node.fields.Keys;
    while keys != {}
      invariant keys <= node.fields.Keys && total <= U64_MAX
      invariant Min(U64_MAX, total + CostOf(pushed) + FieldsCost(node, keys)) ==
                  Min(U64_MAX, charged + CostOf(stack) + FieldsCost(node, node.fields.Keys))
      invariant CostOf(pushed) + FieldsCost(node, keys) <= CostOf(stack) + FieldsCost(node, node.fields.Keys)
    {
      var key :| key in keys;
      PushedCost(node, keys, key, pushed);
      total := SaturatingAdd(total, Utf8Len(key) + NODE + 8);
      pushed := pushed + [node.fields[key]];
      keys := keys - {key};
    }
  }
}
