/**
 The canonical manifest behind a seeded tree hash: the entries of an unpacked package, one line
 each, sorted by path.
 */
module Manifest {
  import opened Basics
  import opened Order

  type Name = seq<byte>

  const LF: byte := '\n' as int
  const SP: byte := ' ' as int
  const SLASH: byte := '/' as int
  const ZERO: byte := '0' as int
  const KIND_FILE: byte := 'f' as int
  const KIND_LINK: byte := 'l' as int
  const KIND_EXEC: byte := 'x' as int
  const MAX_DEPTH: nat := 32
  const DIGEST_LENGTH: nat := 64
  /** `node_modules`, in bytes. */
  const NODE_MODULES: Name := [
    'n' as int, 'o' as int, 'd' as int, 'e' as int, '_' as int, 'm' as int,
    'o' as int, 'd' as int, 'u' as int, 'l' as int, 'e' as int, 's' as int]

  /** A directory tree as `lstat` shows it. */
  datatype Node =
    | File(executable: bool, content: seq<byte>)
    | Symlink(target: seq<byte>)
    | Dir(children: map<Name, Node>)
    | Special

  datatype Entry = Entry(path: seq<byte>, kind: byte, len: nat, digest: seq<byte>)

  /** The lower-case hexadecimal SHA-256 of a byte string. */
  type Digest = seq<byte> -> seq<byte>

  predicate IsHex(digest: seq<byte>) {
    && |digest| == DIGEST_LENGTH
    && forall b :: b in digest ==> '0' as int <= b <= '9' as int || 'a' as int <= b <= 'f' as int
  }

  ghost predicate Lawful(d: Digest) {
    forall content :: IsHex(d(content))
  }

  // -- rendering and reading back ----------------------------------------------------------------

  function Decimal(n: nat): seq<byte> {
    if n < 10 then [ZERO + n] else Decimal(n / 10) + [ZERO + n % 10]
  }

  predicate AllDigits(s: seq<byte>) {
    forall i :: 0 <= i < |s| ==> ZERO <= s[i] <= ZERO + 9
  }

  function Number(digits: seq<byte>): nat
    requires AllDigits(digits)
  {
    if digits == [] then 0 else Number(digits[..|digits| - 1]) * 10 + (digits[|digits| - 1] - ZERO)
  }

  lemma {:induction false} NumberOfDecimal(n: nat)
    ensures AllDigits(Decimal(n)) && Decimal(n) != [] && Number(Decimal(n)) == n
  {
    if n >= 10 {
      NumberOfDecimal(n / 10);
      var front := Decimal(n / 10);
      assert (front + [ZERO + n % 10])[..|front|] == front;
    }
  }

  function Head(e: Entry): seq<byte> {
    e.digest + [SP, e.kind, SP] + Decimal(e.len) + [SP]
  }

  function Line(e: Entry): seq<byte> {
    Head(e) + e.path + [LF]
  }

  function Render(entries: seq<Entry>): seq<byte> {
    if entries == [] then [] else Line(entries[0]) + Render(entries[1..])
  }

  /** Index of the first such byte, or the length. */
  function IndexOf(s: seq<byte>, b: byte): (r: nat)
    ensures r <= |s| && (r < |s| ==> s[r] == b)
    ensures forall i :: 0 <= i < r ==> s[i] != b
  {
    if s == [] || s[0] == b then 0 else 1 + IndexOf(s[1..], b)
  }

  function ReadLine(line: seq<byte>): Option<Entry> {
    if |line| < DIGEST_LENGTH + 3 || line[DIGEST_LENGTH] != SP || line[DIGEST_LENGTH + 2] != SP then None
    else
      var rest := line[DIGEST_LENGTH + 3..];
      var space := IndexOf(rest, SP);
      if space == 0 || space == |rest| || !AllDigits(rest[..space]) then None
      else Some(Entry(rest[space + 1..], line[DIGEST_LENGTH + 1], Number(rest[..space]), line[..DIGEST_LENGTH]))
  }

  function ReadManifest(text: seq<byte>): Option<seq<Entry>>
    decreases |text|
  {
    if text == [] then Some([])
    else
      var end := IndexOf(text, LF);
      if end == |text| then None
      else
        var first, rest := ReadLine(text[..end]), ReadManifest(text[end + 1..]);
        if first.None? || rest.None? then None else Some([first.value] + rest.value)
  }

  lemma IndexAfter(front: seq<byte>, b: byte, rest: seq<byte>)
    requires b !in front
    ensures IndexOf(front + [b] + rest, b) == |front|
  {
    var s := front + [b] + rest;
    assert s[|front|] == b;
    assert forall i :: 0 <= i < |front| ==> s[i] == front[i];
  }

  lemma HeadReads(e: Entry, path: seq<byte>)
    requires IsHex(e.digest)
    ensures ReadLine(Head(e) + path) == Some(e.(path := path))
  {
    NumberOfDecimal(e.len);
    var digits, line := Decimal(e.len), Head(e) + path;
    var rest := digits + [SP] + path;
    assert line == e.digest + [SP, e.kind, SP] + rest;
    assert line[DIGEST_LENGTH + 3..] == rest && line[..DIGEST_LENGTH] == e.digest;
    IndexAfter(digits, SP, path);
    assert rest[..|digits|] == digits && rest[|digits| + 1..] == path;
  }

  lemma HeadOneLine(e: Entry)
    requires IsHex(e.digest) && e.kind != LF
    ensures LF !in Head(e)
  {
    NumberOfDecimal(e.len);
  }

  predicate WellFormed(entries: seq<Entry>) {
    forall e :: e in entries ==> IsHex(e.digest) && e.kind != LF
  }

  predicate PathsOneLine(entries: seq<Entry>) {
    forall e :: e in entries ==> LF !in e.path
  }

  /** A manifest reads back as its entries exactly when no path contains a line feed. */
  lemma ManifestReadsBack(entries: seq<Entry>)
    requires WellFormed(entries)
    ensures ReadManifest(Render(entries)) == Some(entries) <==> PathsOneLine(entries)
  {
    if PathsOneLine(entries) {
      LinesReadBack(entries);
    }
    ReadPathsOneLine(Render(entries));
  }

  lemma {:induction false} LinesReadBack(entries: seq<Entry>)
    requires WellFormed(entries) && PathsOneLine(entries)
    ensures ReadManifest(Render(entries)) == Some(entries)
  {
    if entries != [] {
      var e, rest := entries[0], Render(entries[1..]);
      RestIsWellFormed(entries);
      hide Head, IsHex, ReadLine, ReadManifest, Render, WellFormed, PathsOneLine;
      LinesReadBack(entries[1..]);
      FirstLine(entries);
      HeadReads(e, e.path);
      FirstLineReads(Head(e) + e.path, rest, e);
      assert entries == [e] + entries[1..];
    } else {
      NothingToRead();
    }
  }

  lemma RestIsWellFormed(entries: seq<Entry>)
    requires entries != [] && WellFormed(entries) && PathsOneLine(entries)
    ensures WellFormed(entries[1..]) && PathsOneLine(entries[1..])
    ensures IsHex(entries[0].digest) && entries[0].kind != LF && LF !in entries[0].path
  {
    assert entries[0] in entries;
    hide IsHex;
  }

  lemma FirstLine(entries: seq<Entry>)
    requires entries != [] && WellFormed(entries) && PathsOneLine(entries)
    ensures var e := entries[0];
      Render(entries) == Head(e) + e.path + [LF] + Render(entries[1..]) && LF !in Head(e) + e.path
  {
    HeadOneLine(entries[0]);
    hide Head, IsHex;
  }

  lemma NothingToRead()
    ensures ReadManifest(Render([])) == Some([])
  {
  }

  lemma FirstLineReads(line: seq<byte>, rest: seq<byte>, e: Entry)
    requires LF !in line && ReadLine(line) == Some(e)
    ensures var more := ReadManifest(rest);
      ReadManifest(line + [LF] + rest) == if more.Some? then Some([e] + more.value) else None
  {
    hide ReadLine, IndexOf;
    var text := line + [LF] + rest;
    IndexAfter(line, LF, rest);
    assert text[..|line|] == line && text[|line| + 1..] == rest;
  }

  lemma {:induction false} ReadPathsOneLine(text: seq<byte>)
    ensures ReadManifest(text).Some? ==> PathsOneLine(ReadManifest(text).value)
    decreases |text|
  {
    if text != [] {
      hide ReadLine;
      var end := IndexOf(text, LF);
      if end < |text| {
        ReadPathsOneLine(text[end + 1..]);
        ReadPathInLine(text[..end]);
      }
    }
  }

  lemma ReadPathInLine(line: seq<byte>)
    requires LF !in line
    ensures ReadLine(line).Some? ==> LF !in ReadLine(line).value.path
  {
    var read := ReadLine(line);
    if read.Some? {
      assert forall b :: b in read.value.path ==> b in line[DIGEST_LENGTH + 3..];
    }
  }

  /** With a line feed in its path, one entry renders exactly as two others. */
  lemma LineFeedMerges(e: Entry, g: Entry)
    ensures Render([e.(path := e.path + [LF] + Head(g) + g.path)]) == Render([e, g])
  {
    var merged := e.(path := e.path + [LF] + Head(g) + g.path);
    hide Head;
    assert Head(merged) == Head(e) by {
      HeadIgnoresPath(e, merged.path);
    }
    assert [e, g][1..] == [g] && [g][1..] == [] && [merged][1..] == [];
    assert Render([g]) == Line(g);
    assert Render([e, g]) == Line(e) + Line(g);
  }

  lemma HeadIgnoresPath(e: Entry, path: seq<byte>)
    ensures Head(e.(path := path)) == Head(e)
  {
  }

  // -- sorting -----------------------------------------------------------------------------------

  ghost predicate Ascending(entries: seq<Entry>) {
    forall i, j :: 0 <= i < j < |entries| ==> Leq(entries[i].path, entries[j].path)
  }

  ghost predicate DistinctPaths(entries: seq<Entry>) {
    forall i, j :: 0 <= i < j < |entries| ==> entries[i].path != entries[j].path
  }

  function InsertByPath(e: Entry, sorted: seq<Entry>): (r: seq<Entry>)
    ensures multiset(r) == multiset(sorted) + multiset{e}
  {
    if sorted == [] || Leq(e.path, sorted[0].path) then [e] + sorted
    else
      assert sorted == [sorted[0]] + sorted[1..];
      [sorted[0]] + InsertByPath(e, sorted[1..])
  }

  lemma {:induction false} InsertAscends(e: Entry, sorted: seq<Entry>)
    requires Ascending(sorted)
    ensures Ascending(InsertByPath(e, sorted))
  {
    var r := InsertByPath(e, sorted);
    if sorted != [] {
      LeqTotal(e.path, sorted[0].path);
      if Leq(e.path, sorted[0].path) {
        forall j | 0 <= j < |sorted|
          ensures Leq(e.path, sorted[j].path)
        {
          LeqReflexive(sorted[0].path);
          LeqTransitive(e.path, sorted[0].path, sorted[j].path);
        }
      } else {
        InsertAscends(e, sorted[1..]);
        var more := InsertByPath(e, sorted[1..]);
        forall x | x in more
          ensures Leq(sorted[0].path, x.path)
        {
          assert x in multiset(more);
          assert x == e || x in sorted[1..];
        }
      }
    }
  }

  /** Ascending lists of the same entries, one per path, are the same list. */
  lemma {:induction false} OneAscendingList(a: seq<Entry>, b: seq<Entry>)
    requires Ascending(a) && Ascending(b) && DistinctPaths(a) && DistinctPaths(b)
    requires forall e :: e in a <==> e in b
    ensures a == b
  {
    assert a != [] ==> a[0] in b;
    assert b != [] ==> b[0] in a;
    if a != [] && b != [] {
      FirstIsLeast(a, b[0]);
      FirstIsLeast(b, a[0]);
      LeqAntisymmetric(a[0].path, b[0].path);
      SamePathSameEntry(a, a[0], b[0]);
      forall e
        ensures e in a[1..] <==> e in b[1..]
      {
        assert e in a <==> e == a[0] || e in a[1..];
        assert e in b <==> e == b[0] || e in b[1..];
        assert a[0] !in a[1..] && b[0] !in b[1..];
      }
      OneAscendingList(a[1..], b[1..]);
      assert a == [a[0]] + a[1..] && b == [b[0]] + b[1..];
    }
  }

  lemma FirstIsLeast(a: seq<Entry>, e: Entry)
    requires Ascending(a) && e in a
    ensures Leq(a[0].path, e.path)
  {
    LeqReflexive(e.path);
    var i :| 0 <= i < |a| && a[i] == e;
  }

  lemma SamePathSameEntry(a: seq<Entry>, e: Entry, g: Entry)
    requires DistinctPaths(a) && e in a && g in a && e.path == g.path
    ensures e == g
  {
    var i :| 0 <= i < |a| && a[i] == e;
    var j :| 0 <= j < |a| && a[j] == g;
    assert a[i].path == a[j].path;
  }

  lemma DistinctPathsOf(a: seq<Entry>, b: seq<Entry>)
    requires DistinctPaths(a) && multiset(a) == multiset(b)
    ensures DistinctPaths(b)
  {
    forall i, j | 0 <= i < j < |b|
      ensures b[i].path != b[j].path
    {
      var x, y := b[i], b[j];
      assert x in multiset(b) && y in multiset(b);
      assert x in a && y in a;
      if x.path == y.path {
        SamePathSameEntry(a, x, y);
        TwoOf(b, i, j);
        OneOf(a, x);
      }
    }
  }

  lemma TwoOf(b: seq<Entry>, i: nat, j: nat)
    requires i < j < |b| && b[i] == b[j]
    ensures multiset(b)[b[i]] >= 2
  {
    assert b == b[..j] + b[j..];
    assert b[i] == b[..j][i] && b[i] in multiset(b[..j]);
    assert b[j] == b[j..][0] && b[j] in multiset(b[j..]);
  }

  lemma {:induction false} OneOf(a: seq<Entry>, e: Entry)
    requires DistinctPaths(a)
    ensures multiset(a)[e] <= 1
  {
    if a != [] {
      OneOf(a[1..], e);
      assert a == [a[0]] + a[1..];
      if a[0] == e {
        assert e !in a[1..];
        assert e !in multiset(a[1..]);
      }
    }
  }

  method SortByPath(entries: seq<Entry>) returns (sorted: seq<Entry>)
    ensures Ascending(sorted) && multiset(sorted) == multiset(entries)
  {
    sorted := [];
    assert entries[..0] == [];
    for i := 0 to |entries|
      invariant Ascending(sorted) && multiset(sorted) == multiset(entries[..i])
    {
      assert entries[..i + 1] == entries[..i] + [entries[i]];
      InsertAscends(entries[i], sorted);
      sorted := InsertByPath(entries[i], sorted);
    }
    assert entries[..|entries|] == entries;
  }

  // -- walking the tree ----------------------------------------------------------------------------

  predicate ValidName(name: Name) {
    name != [] && SLASH !in name
  }

  /** Directory entries have non-empty names without a slash. */
  ghost predicate ValidTree(node: Node) {
    node.Dir? ==> forall name :: name in node.children ==> ValidName(name) && ValidTree(node.children[name])
  }

  datatype Leaf = Leaf(kind: byte, len: nat, digest: seq<byte>)

  /** What is recorded of one node; directories and devices leave no line of their own. */
  function LeafOf(d: Digest, node: Node): Option<Leaf> {
    match node
    case File(executable, content) =>
      Some(Leaf(if executable then KIND_EXEC else KIND_FILE, Min(|content|, U64_MAX), d(content)))
    case Symlink(target) => Some(Leaf(KIND_LINK, |target|, d(target)))
    case Dir(_) => None
    case Special => None
  }

  /** What the hash covers at a place of the tree, given by the names that lead to it. */
  ghost function Hashed(d: Digest, dir: Node, depth: nat, names: seq<Name>): Option<Leaf>
    decreases |names|
  {
    if depth > MAX_DEPTH || names == [] || !dir.Dir? || names[0] == NODE_MODULES || names[0] !in dir.children then None
    else if |names| == 1 then LeafOf(d, dir.children[names[0]])
    else Hashed(d, dir.children[names[0]], depth + 1, names[1..])
  }

  function Lead(prefix: seq<byte>): seq<byte> {
    if prefix == [] then [] else prefix + [SLASH]
  }

  function Join(names: seq<Name>): seq<byte> {
    if names == [] then []
    else if |names| == 1 then names[0]
    else names[0] + [SLASH] + Join(names[1..])
  }

  predicate ValidNames(names: seq<Name>) {
    forall name :: name in names ==> ValidName(name)
  }

  lemma {:induction false} JoinInjective(a: seq<Name>, b: seq<Name>)
    requires a != [] && b != [] && ValidNames(a) && ValidNames(b)
    requires Join(a) == Join(b)
    ensures a == b
  {
    var s := Join(a);
    FirstSlash(a);
    FirstSlash(b);
    assert a[0] == s[..|a[0]|] && b[0] == s[..|b[0]|];
    if |a| == 1 {
      assert a == [a[0]] && b == [b[0]];
    } else {
      assert s[|a[0]| + 1..] == Join(a[1..]) && s[|b[0]| + 1..] == Join(b[1..]);
      JoinInjective(a[1..], b[1..]);
      assert a == [a[0]] + a[1..] && b == [b[0]] + b[1..];
    }
  }

  lemma FirstSlash(names: seq<Name>)
    requires names != [] && ValidNames(names)
    ensures IndexOf(Join(names), SLASH) == |names[0]|
    ensures |names| == 1 <==> |Join(names)| == |names[0]|
    ensures Join(names)[..|names[0]|] == names[0]
  {
    assert names[0] in names;
    if |names| > 1 {
      IndexAfter(names[0], SLASH, Join(names[1..]));
    }
  }

  /** An entry for something below one of these names of the directory. */
  ghost predicate Below(d: Digest, dir: Node, prefix: seq<byte>, depth: nat, among: set<Name>, e: Entry) {
    exists names :: names != [] && names[0] in among && AtNames(d, dir, prefix, depth, names, e)
  }

  /** Exactly one entry for each place the hash covers. */
  ghost predicate Lists(d: Digest, dir: Node, prefix: seq<byte>, depth: nat, among: set<Name>, entries: seq<Entry>) {
    && DistinctPaths(entries)
    && forall e :: e in entries <==> Below(d, dir, prefix, depth, among, e)
  }

  lemma {:induction false} HashedNamesValid(d: Digest, dir: Node, depth: nat, names: seq<Name>)
    requires ValidTree(dir) && Hashed(d, dir, depth, names).Some?
    ensures names != [] && ValidNames(names) && dir.Dir? && names[0] in dir.children
    decreases |names|
  {
    if |names| > 1 {
      HashedNamesValid(d, dir.children[names[0]], depth + 1, names[1..]);
      assert names == [names[0]] + names[1..];
    }
  }

  /** The entries below one name are those of its node. */
  ghost predicate OfNode(d: Digest, node: Node, path: seq<byte>, depth: nat, e: Entry) {
    if node.Dir? then Below(d, node, path, depth, node.children.Keys, e)
    else LeafOf(d, node).Some? && e == EntryOf(path, LeafOf(d, node).value)
  }

  ghost predicate AtNames(d: Digest, dir: Node, prefix: seq<byte>, depth: nat, names: seq<Name>, e: Entry) {
    && names != [] && e.path == Lead(prefix) + Join(names)
    && Hashed(d, dir, depth, names) == Some(Leaf(e.kind, e.len, e.digest))
  }

  lemma JoinUnder(prefix: seq<byte>, name: Name, rest: seq<Name>)
    requires name != []
    ensures Lead(prefix) + Join([name] + rest) ==
              if rest == [] then Lead(prefix) + name else Lead(Lead(prefix) + name) + Join(rest)
  {
    assert ([name] + rest)[1..] == rest;
    if rest != [] {
      assert Lead(prefix) + (name + [SLASH] + Join(rest)) == Lead(prefix) + name + [SLASH] + Join(rest);
    }
  }

  lemma PlaceOf(d: Digest, dir: Node, prefix: seq<byte>, depth: nat, names: seq<Name>, e: Entry)
    requires AtNames(d, dir, prefix, depth, names, e)
    ensures Hashed(d, dir, depth, names) == Some(Leaf(e.kind, e.len, e.digest))
  {
  }

  lemma PlaceUnder(d: Digest, dir: Node, prefix: seq<byte>, depth: nat, name: Name, rest: seq<Name>, e: Entry)
    requires dir.Dir? && ValidTree(dir) && depth <= MAX_DEPTH && name in dir.children && name != NODE_MODULES
    requires AtNames(d, dir.children[name], Lead(prefix) + name, depth + 1, rest, e)
    ensures AtNames(d, dir, prefix, depth, [name] + rest, e)
  {
    hide Join, Lead;
    var node, names := dir.children[name], [name] + rest;
    PlaceOf(d, node, Lead(prefix) + name, depth + 1, rest, e);
    assert names[1..] == rest && names[0] == name;
    JoinUnder(prefix, name, rest);
    assert Hashed(d, dir, depth, names) == Hashed(d, node, depth + 1, rest);
  }

  lemma OfNodeIsBelow(d: Digest, dir: Node, prefix: seq<byte>, depth: nat, name: Name, e: Entry)
    requires dir.Dir? && ValidTree(dir) && depth <= MAX_DEPTH && name in dir.children && name != NODE_MODULES
    requires OfNode(d, dir.children[name], Lead(prefix) + name, depth + 1, e)
    ensures Below(d, dir, prefix, depth, {name}, e)
  {
    hide Join, Lead;
    var node, path := dir.children[name], Lead(prefix) + name;
    if node.Dir? {
      var rest :| rest != [] && AtNames(d, node, path, depth + 1, rest, e);
      PlaceUnder(d, dir, prefix, depth, name, rest, e);
      assert ([name] + rest)[0] == name;
    } else {
      JoinUnder(prefix, name, []);
      assert [name] + [] == [name] && Hashed(d, dir, depth, [name]) == LeafOf(d, node);
      assert AtNames(d, dir, prefix, depth, [name], e);
    }
  }

  lemma BelowIsOfNode(d: Digest, dir: Node, prefix: seq<byte>, depth: nat, name: Name, e: Entry)
    requires dir.Dir? && ValidTree(dir) && depth <= MAX_DEPTH && name in dir.children && name != NODE_MODULES
    requires Below(d, dir, prefix, depth, {name}, e)
    ensures OfNode(d, dir.children[name], Lead(prefix) + name, depth + 1, e)
  {
    hide Join, Lead;
    var node := dir.children[name];
    var names :| names != [] && names[0] in {name} && AtNames(d, dir, prefix, depth, names, e);
    var rest := names[1..];
    assert names == [name] + rest;
    JoinUnder(prefix, name, rest);
    if rest != [] {
      HashedNamesValid(d, node, depth + 1, rest);
      assert AtNames(d, node, Lead(prefix) + name, depth + 1, rest, e);
    }
  }

  function EntryOf(path: seq<byte>, leaf: Leaf): Entry {
    Entry(path, leaf.kind, leaf.len, leaf.digest)
  }

  /** Adding the entries below one more name. */
  lemma ListsMore(d: Digest, dir: Node, prefix: seq<byte>, depth: nat, among: set<Name>, name: Name,
                  out: seq<Entry>, more: seq<Entry>)
    requires ValidTree(dir) && name !in among
    requires Lists(d, dir, prefix, depth, among, out)
    requires Lists(d, dir, prefix, depth, {name}, more)
    ensures Lists(d, dir, prefix, depth, among + {name}, out + more)
  {
    forall e
      ensures e in out + more <==> Below(d, dir, prefix, depth, among + {name}, e)
    {
      assert e in out + more <==> e in out || e in more;
      BelowEither(d, dir, prefix, depth, among, {name}, e);
    }
    forall i, j | 0 <= i < |out| && 0 <= j < |more|
      ensures out[i].path != more[j].path
    {
      assert out[i] in out && more[j] in more;
      BelowApart(d, dir, prefix, depth, among, name, out[i], more[j]);
    }
  }

  lemma BelowEither(d: Digest, dir: Node, prefix: seq<byte>, depth: nat, a: set<Name>, b: set<Name>, e: Entry)
    ensures Below(d, dir, prefix, depth, a + b, e) <==>
              Below(d, dir, prefix, depth, a, e) || Below(d, dir, prefix, depth, b, e)
  {
    hide AtNames;
  }

  lemma BelowApart(d: Digest, dir: Node, prefix: seq<byte>, depth: nat, among: set<Name>, name: Name, e: Entry,
                   g: Entry)
    requires ValidTree(dir) && name !in among
    requires Below(d, dir, prefix, depth, among, e) && Below(d, dir, prefix, depth, {name}, g)
    ensures e.path != g.path
  {
    hide Hashed, Join, Lead, ValidTree;
    var a :| a != [] && a[0] in among && AtNames(d, dir, prefix, depth, a, e);
    var b :| b != [] && b[0] in {name} && AtNames(d, dir, prefix, depth, b, g);
    HashedNamesValid(d, dir, depth, a);
    HashedNamesValid(d, dir, depth, b);
    if e.path == g.path {
      assert Join(a) == e.path[|Lead(prefix)|..] && Join(b) == g.path[|Lead(prefix)|..];
      JoinInjective(a, b);
    }
  }

  /** Depth first, names in byte order: the order in which the walk comes to two places. */
  ghost predicate NamesBefore(a: seq<Name>, b: seq<Name>) {
    && a != [] && b != []
    && ((a[0] != b[0] && Leq(a[0], b[0])) || (a[0] == b[0] && NamesBefore(a[1..], b[1..])))
  }

  ghost predicate InWalkOrder(d: Digest, dir: Node, prefix: seq<byte>, depth: nat, e: Entry, g: Entry) {
    exists a, b :: AtNames(d, dir, prefix, depth, a, e) && AtNames(d, dir, prefix, depth, b, g) && NamesBefore(a, b)
  }

  ghost predicate WalkOrdered(d: Digest, dir: Node, prefix: seq<byte>, depth: nat, entries: seq<Entry>) {
    forall i, j :: 0 <= i < j < |entries| ==> InWalkOrder(d, dir, prefix, depth, entries[i], entries[j])
  }

  lemma WalkOrderUnder(d: Digest, dir: Node, prefix: seq<byte>, depth: nat, name: Name, entries: seq<Entry>)
    requires dir.Dir? && ValidTree(dir) && depth <= MAX_DEPTH && name in dir.children && name != NODE_MODULES
    requires WalkOrdered(d, dir.children[name], Lead(prefix) + name, depth + 1, entries)
    ensures WalkOrdered(d, dir, prefix, depth, entries)
  {
    hide AtNames, ValidTree, Lead;
    var node, path := dir.children[name], Lead(prefix) + name;
    forall i, j | 0 <= i < j < |entries|
      ensures InWalkOrder(d, dir, prefix, depth, entries[i], entries[j])
    {
      assert InWalkOrder(d, node, path, depth + 1, entries[i], entries[j]);
      var a, b :| AtNames(d, node, path, depth + 1, a, entries[i]) && AtNames(d, node, path, depth + 1, b, entries[j])
                  && NamesBefore(a, b);
      PlaceUnder(d, dir, prefix, depth, name, a, entries[i]);
      PlaceUnder(d, dir, prefix, depth, name, b, entries[j]);
      assert ([name] + a)[1..] == a && ([name] + b)[1..] == b;
      assert NamesBefore([name] + a, [name] + b);
    }
  }

  lemma WalkOrderMore(d: Digest, dir: Node, prefix: seq<byte>, depth: nat, among: set<Name>, name: Name,
                      out: seq<Entry>, more: seq<Entry>)
    requires Lists(d, dir, prefix, depth, among, out) && Lists(d, dir, prefix, depth, {name}, more)
    requires forall x :: x in among ==> x != name && Leq(x, name)
    requires WalkOrdered(d, dir, prefix, depth, out) && WalkOrdered(d, dir, prefix, depth, more)
    ensures WalkOrdered(d, dir, prefix, depth, out + more)
  {
    hide AtNames, DistinctPaths;
    var all := out + more;
    forall i, j | 0 <= i < j < |all|
      ensures InWalkOrder(d, dir, prefix, depth, all[i], all[j])
    {
      if j < |out| {
        assert all[i] == out[i] && all[j] == out[j];
      } else if i >= |out| {
        assert all[i] == more[i - |out|] && all[j] == more[j - |out|];
      } else {
        assert all[i] == out[i] && all[j] == more[j - |out|];
        assert all[i] in out && all[j] in more;
        var a :| a != [] && a[0] in among && AtNames(d, dir, prefix, depth, a, all[i]);
        var b :| b != [] && b[0] in {name} && AtNames(d, dir, prefix, depth, b, all[j]);
        assert NamesBefore(a, b);
      }
    }
  }

  /** `read_dir_sorted`: the directory's names, in byte order. */
  method ReadDirSorted(children: map<Name, Node>) returns (names: seq<Name>)
    ensures forall i, j :: 0 <= i < j < |names| ==> names[i] != names[j] && Leq(names[i], names[j])
    ensures forall name :: name in names <==> name in children
  {
    names := [];
    var rest := children.Keys;
    while rest != {}
      invariant forall i, j :: 0 <= i < j < |names| ==> names[i] != names[j] && Leq(names[i], names[j])
      invariant rest <= children.Keys
      invariant forall name :: name in names <==> name in children && name !in rest
    {
      var name :| name in rest;
      names := InsertName(name, names);
      rest := rest - {name};
    }
  }

  method InsertName(name: Name, names: seq<Name>) returns (more: seq<Name>)
    requires forall i, j :: 0 <= i < j < |names| ==> names[i] != names[j] && Leq(names[i], names[j])
    requires name !in names
    ensures forall i, j :: 0 <= i < j < |more| ==> more[i] != more[j] && Leq(more[i], more[j])
    ensures forall x :: x in more <==> x == name || x in names
  {
    var at := 0;
    while at < |names| && Leq(names[at], name)
      invariant at <= |names|
      invariant forall i :: 0 <= i < at ==> Leq(names[i], name)
    {
      at := at + 1;
    }
    forall j | at <= j < |names|
      ensures Leq(name, names[j])
    {
      LeqTotal(name, names[at]);
      if j > at {
        LeqTransitive(name, names[at], names[j]);
      }
    }
    assert names == names[..at] + names[at..];
    more := names[..at] + [name] + names[at..];
  }

  /** `collect_tree`: an entry for each place the hash covers, no path twice, in the order of the walk. */
  method CollectTree(d: Digest, dir: Node, prefix: seq<byte>, depth: nat) returns (out: seq<Entry>)
    requires dir.Dir? && ValidTree(dir)
    ensures Lists(d, dir, prefix, depth, dir.children.Keys, out)
    ensures WalkOrdered(d, dir, prefix, depth, out)
    decreases dir
  {
    hide Lists, InWalkOrder;
    out := [];
    NothingBelow(d, dir, prefix, depth);
    if depth > MAX_DEPTH {
      return;
    }
    var names := ReadDirSorted(dir.children);
    ghost var done: set<Name> := {};
    for i := 0 to |names|
      invariant forall name :: name in done <==> name in names[..i]
      invariant Lists(d, dir, prefix, depth, done, out) && WalkOrdered(d, dir, prefix, depth, out)
    {
      var name := names[i];
      assert name in dir.children && name !in names[..i];
      var more := CollectOne(d, dir, prefix, depth, name);
      ListsMore(d, dir, prefix, depth, done, name, out, more);
      WalkOrderMore(d, dir, prefix, depth, done, name, out, more);
      out := out + more;
      done := done + {name};
    }
    assert done == dir.children.Keys;
  }

  lemma NothingBelow(d: Digest, dir: Node, prefix: seq<byte>, depth: nat)
    ensures Lists(d, dir, prefix, depth, {}, [])
    ensures dir.Dir? && depth > MAX_DEPTH ==> Lists(d, dir, prefix, depth, dir.children.Keys, [])
  {
  }

  lemma SkippedName(d: Digest, dir: Node, prefix: seq<byte>, depth: nat)
    ensures Lists(d, dir, prefix, depth, {NODE_MODULES}, [])
  {
  }

  lemma OneNameListed(d: Digest, dir: Node, prefix: seq<byte>, depth: nat, name: Name, out: seq<Entry>)
    requires dir.Dir? && ValidTree(dir) && depth <= MAX_DEPTH && name in dir.children && name != NODE_MODULES
    requires var node, relative := dir.children[name], Lead(prefix) + name;
      if node.Dir? then Lists(d, node, relative, depth + 1, node.children.Keys, out)
      else out == if LeafOf(d, node).Some? then [EntryOf(relative, LeafOf(d, node).value)] else []
    ensures Lists(d, dir, prefix, depth, {name}, out)
  {
    hide Below, LeafOf, Lead;
    forall e
      ensures e in out <==> Below(d, dir, prefix, depth, {name}, e)
    {
      if e in out {
        OfNodeIsBelow(d, dir, prefix, depth, name, e);
      }
      if Below(d, dir, prefix, depth, {name}, e) {
        BelowIsOfNode(d, dir, prefix, depth, name, e);
      }
    }
  }

  method CollectOne(d: Digest, dir: Node, prefix: seq<byte>, depth: nat, name: Name) returns (out: seq<Entry>)
    requires dir.Dir? && ValidTree(dir) && depth <= MAX_DEPTH && name in dir.children
    ensures Lists(d, dir, prefix, depth, {name}, out) && WalkOrdered(d, dir, prefix, depth, out)
    decreases dir, 0
  {
    hide Lists, LeafOf, InWalkOrder;
    if name == NODE_MODULES {
      out := [];
      SkippedName(d, dir, prefix, depth);
      return;
    }
    var node, relative := dir.children[name], Lead(prefix) + name;
    if node.Dir? {
      out := CollectTree(d, node, relative, depth + 1);
      WalkOrderUnder(d, dir, prefix, depth, name, out);
    } else {
      var leaf := LeafOf(d, node);
      out := if leaf.Some? then [EntryOf(relative, leaf.value)] else [];
    }
    OneNameListed(d, dir, prefix, depth, name, out);
  }

  // -- the manifest of a tree ----------------------------------------------------------------------

  /** The manifest is the rendering of the tree's entries in path order. */
  ghost predicate IsManifest(d: Digest, dir: Node, manifest: seq<byte>) {
    exists entries :: IsEntryList(d, dir, entries) && manifest == Render(entries)
  }

  ghost predicate IsEntryList(d: Digest, dir: Node, entries: seq<Entry>) {
    dir.Dir? && Ascending(entries) && Lists(d, dir, [], 0, dir.children.Keys, entries)
  }

  /** `tree_sha256`, up to the final hash. */
  method TreeManifest(d: Digest, dir: Node) returns (manifest: seq<byte>)
    requires dir.Dir? && ValidTree(dir)
    ensures IsManifest(d, dir, manifest)
  {
    hide Below;
    var collected := CollectTree(d, dir, [], 0);
    var entries := SortByPath(collected);
    DistinctPathsOf(collected, entries);
    forall e
      ensures e in entries <==> e in collected
    {
      assert e in multiset(entries) <==> e in multiset(collected);
    }
    assert IsEntryList(d, dir, entries);

    manifest := RenderLines(entries);
  }

  method RenderLines(entries: seq<Entry>) returns (manifest: seq<byte>)
    ensures manifest == Render(entries)
  {
    hide Line;
    manifest := [];
    assert entries[0..] == entries;
    for i := 0 to |entries|
      invariant manifest + Render(entries[i..]) == Render(entries)
    {
      assert entries[i..][1..] == entries[i + 1..];
      var line, rest := Line(entries[i]), Render(entries[i + 1..]);
      assert manifest + (line + rest) == manifest + line + rest;
      manifest := manifest + Line(entries[i]);
    }
  }

  /** The two trees hold the same at every place the hash covers. */
  ghost predicate SameView(d: Digest, a: Node, b: Node) {
    forall names: seq<Name> :: Hashed(d, a, 0, names) == Hashed(d, b, 0, names)
  }

  /** The manifest depends on what the tree holds, not on the order it is walked in. */
  lemma SameViewSameManifest(d: Digest, a: Node, b: Node, m: seq<byte>, n: seq<byte>)
    requires ValidTree(a) && ValidTree(b) && SameView(d, a, b)
    requires IsManifest(d, a, m) && IsManifest(d, b, n)
    ensures m == n
  {
    var x :| IsEntryList(d, a, x) && m == Render(x);
    var y :| IsEntryList(d, b, y) && n == Render(y);
    forall e
      ensures e in x <==> e in y
    {
      BelowMeans(d, a, e);
      BelowMeans(d, b, e);
      hide Hashed, Below, Join, ValidTree;
    }
    OneAscendingList(x, y);
  }

  ghost predicate Holds(d: Digest, dir: Node, names: seq<Name>, e: Entry) {
    e.path == Join(names) && Hashed(d, dir, 0, names) == Some(Leaf(e.kind, e.len, e.digest))
  }

  lemma BelowMeans(d: Digest, dir: Node, e: Entry)
    requires ValidTree(dir) && dir.Dir?
    ensures Below(d, dir, [], 0, dir.children.Keys, e) <==> exists names :: Holds(d, dir, names, e)
  {
    hide Hashed, Join;
    if Below(d, dir, [], 0, dir.children.Keys, e) {
      var names :| names != [] && names[0] in dir.children.Keys && AtNames(d, dir, [], 0, names, e);
      assert Holds(d, dir, names, e);
    }
    if exists names :: Holds(d, dir, names, e) {
      var names :| Holds(d, dir, names, e);
      HashedNamesValid(d, dir, 0, names);
      assert e.path == Lead([]) + Join(names);
      assert AtNames(d, dir, [], 0, names, e);
    }
  }

  /** No path the hash covers contains a line feed. */
  ghost predicate NoLineFeeds(d: Digest, dir: Node) {
    forall names: seq<Name> :: Hashed(d, dir, 0, names).Some? ==> LF !in Join(names)
  }

  lemma {:induction false} HashedLeaf(d: Digest, dir: Node, depth: nat, names: seq<Name>)
    requires Lawful(d) && Hashed(d, dir, depth, names).Some?
    ensures var leaf := Hashed(d, dir, depth, names).value; IsHex(leaf.digest) && leaf.kind != LF
    decreases |names|
  {
    if |names| > 1 {
      HashedLeaf(d, dir.children[names[0]], depth + 1, names[1..]);
    }
  }

  lemma EntryListReadsBack(d: Digest, dir: Node, entries: seq<Entry>)
    requires Lawful(d) && ValidTree(dir) && NoLineFeeds(d, dir) && IsEntryList(d, dir, entries)
    ensures ReadManifest(Render(entries)) == Some(entries)
  {
    forall e | e in entries
      ensures IsHex(e.digest) && e.kind != LF && LF !in e.path
    {
      BelowMeans(d, dir, e);
      var names :| Holds(d, dir, names, e);
      HashedLeaf(d, dir, 0, names);
    }
    hide IsHex, Below, Lawful;
    ManifestReadsBack(entries);
  }

  /** Without line feeds in paths, trees that differ anywhere the hash covers have different manifests. */
  lemma DifferentTreesDifferentManifests(d: Digest, a: Node, b: Node, m: seq<byte>, n: seq<byte>)
    requires Lawful(d) && ValidTree(a) && ValidTree(b) && NoLineFeeds(d, a) && NoLineFeeds(d, b)
    requires IsManifest(d, a, m) && IsManifest(d, b, n)
    ensures m == n <==> SameView(d, a, b)
  {
    if SameView(d, a, b) {
      SameViewSameManifest(d, a, b, m, n);
    }
    if m == n {
      var x :| IsEntryList(d, a, x) && m == Render(x);
      var y :| IsEntryList(d, b, y) && n == Render(y);
      EntryListReadsBack(d, a, x);
      EntryListReadsBack(d, b, y);
      assert x == y;
      forall names
        ensures Hashed(d, a, 0, names) == Hashed(d, b, 0, names)
      {
        SeenInBoth(d, a, b, x, names);
        SeenInBoth(d, b, a, x, names);
      }
    }
  }

  lemma SeenInBoth(d: Digest, a: Node, b: Node, entries: seq<Entry>, names: seq<Name>)
    requires ValidTree(a) && ValidTree(b) && IsEntryList(d, a, entries) && IsEntryList(d, b, entries)
    ensures Hashed(d, a, 0, names).Some? ==> Hashed(d, b, 0, names) == Hashed(d, a, 0, names)
  {
    hide Hashed, Join, Below, ValidTree;
    var found := Hashed(d, a, 0, names);
    if found.Some? {
      var e := EntryOf(Join(names), found.value);
      assert Holds(d, a, names, e);
      BelowMeans(d, a, e);
      BelowMeans(d, b, e);
      assert e in entries;
      var others :| Holds(d, b, others, e);
      HashedNamesValid(d, a, 0, names);
      HashedNamesValid(d, b, 0, others);
      JoinInjective(names, others);
    }
  }

  // -- what a manifest says about the files themselves ------------------------------------------------

  /** What is at a place of the tree, given by the names that lead to it. */
  ghost function NodeAt(dir: Node, names: seq<Name>): Option<Node>
    decreases |names|
  {
    if names == [] then Some(dir)
    else if !dir.Dir? || names[0] !in dir.children then None
    else NodeAt(dir.children[names[0]], names[1..])
  }

  /** The file or link at a place the hash covers: no `node_modules` on the way and not nested too deep. */
  ghost function Covered(dir: Node, names: seq<Name>): Option<Node> {
    var node := NodeAt(dir, names);
    if node.Some? && (node.value.File? || node.value.Symlink?) && names != []
       && NODE_MODULES !in names && |names| <= MAX_DEPTH + 1
    then node else None
  }

  lemma {:induction false} HashedIsCovered(d: Digest, dir: Node, depth: nat, names: seq<Name>)
    ensures Hashed(d, dir, depth, names) ==
              var node := NodeAt(dir, names);
              if node.Some? && names != [] && NODE_MODULES !in names && depth + |names| <= MAX_DEPTH + 1
              then LeafOf(d, node.value) else None
    decreases |names|
  {
    hide LeafOf, NODE_MODULES;
    if |names| > 1 {
      assert names == [names[0]] + names[1..];
      if dir.Dir? && names[0] in dir.children {
        HashedIsCovered(d, dir.children[names[0]], depth + 1, names[1..]);
      }
    } else if |names| == 1 {
      assert names[1..] == [] && (NODE_MODULES in names <==> names[0] == NODE_MODULES);
      if dir.Dir? && names[0] in dir.children {
        assert NodeAt(dir.children[names[0]], []) == Some(dir.children[names[0]]);
      }
    }
  }

  /** The bytes the hash reads of a file or a link. */
  ghost function Bytes(node: Node): seq<byte> {
    if node.File? then node.content else if node.Symlink? then node.target else []
  }

  /** The digest tells these bytes apart. */
  ghost predicate TellsApart(d: Digest, x: seq<byte>, y: seq<byte>) {
    d(x) == d(y) ==> x == y
  }

  /** The digest tells apart whatever files and links occur at covered places of the two trees. */
  ghost predicate NoCollision(d: Digest, a: Node, b: Node) {
    forall names: seq<Name>, others: seq<Name> :: Covered(a, names).Some? && Covered(b, others).Some? ==>
      TellsApart(d, Bytes(Covered(a, names).value), Bytes(Covered(b, others).value))
  }

  /** At every covered place the trees hold the same file, executable bit and content, or the same link. */
  ghost predicate SameTree(a: Node, b: Node) {
    forall names: seq<Name> :: Covered(a, names) == Covered(b, names)
  }

  lemma HashedReads(d: Digest, dir: Node, names: seq<Name>)
    ensures Hashed(d, dir, 0, names) == if Covered(dir, names).Some? then LeafOf(d, Covered(dir, names).value) else None
    ensures Covered(dir, names).Some? <==> Hashed(d, dir, 0, names).Some?
  {
    HashedIsCovered(d, dir, 0, names);
    hide Hashed, NodeAt, NODE_MODULES;
  }

  lemma LeavesTellNodes(d: Digest, x: Node, y: Node)
    requires (x.File? || x.Symlink?) && (y.File? || y.Symlink?) && TellsApart(d, Bytes(x), Bytes(y))
    ensures LeafOf(d, x) == LeafOf(d, y) <==> x == y
  {
  }

  lemma SameViewIsSameTree(d: Digest, a: Node, b: Node)
    requires NoCollision(d, a, b)
    ensures SameView(d, a, b) <==> SameTree(a, b)
  {
    hide Hashed, LeafOf, TellsApart, Bytes;
    forall names: seq<Name>
      ensures Hashed(d, a, 0, names) == Hashed(d, b, 0, names) <==> Covered(a, names) == Covered(b, names)
    {
      HashedReads(d, a, names);
      HashedReads(d, b, names);
      CoveredIsLeaf(a, names);
      CoveredIsLeaf(b, names);
      hide Covered;
      if Covered(a, names).Some? && Covered(b, names).Some? {
        assert TellsApart(d, Bytes(Covered(a, names).value), Bytes(Covered(b, names).value));
        LeavesTellNodes(d, Covered(a, names).value, Covered(b, names).value);
      }
    }
  }

  lemma CoveredIsLeaf(dir: Node, names: seq<Name>)
    ensures Covered(dir, names).Some? ==> Covered(dir, names).value.File? || Covered(dir, names).value.Symlink?
  {
  }

  /**
   What a manifest tells about the files themselves. If the digest tells the contents and link targets
   that occur apart, and no covered path contains a line feed, two trees have the same manifest if and
   only if they hold the same at every covered place: a file with the same executable bit and the same
   content, or a link with the same target.
   */
  lemma SameManifestSameFiles(d: Digest, a: Node, b: Node, m: seq<byte>, n: seq<byte>)
    requires Lawful(d) && ValidTree(a) && ValidTree(b) && NoLineFeeds(d, a) && NoLineFeeds(d, b)
    requires NoCollision(d, a, b)
    requires IsManifest(d, a, m) && IsManifest(d, b, n)
    ensures m == n <==> SameTree(a, b)
  {
    hide IsManifest, ValidTree, NoLineFeeds, NoCollision, SameView, SameTree, Lawful;
    DifferentTreesDifferentManifests(d, a, b, m, n);
    SameViewIsSameTree(d, a, b);
  }

  /**
   The walk alone does not sort: with a file below a directory and a sibling whose name continues
   the directory's with a byte below the slash, the walk's list is never in path order.
   */
  lemma WalkOrderIsNotPathOrder(d: Digest, dir: Node, entries: seq<Entry>, name: Name, more: Name, child: Name)
    requires ValidTree(dir) && more != [] && more[0] < SLASH
    requires Hashed(d, dir, 0, [name, child]).Some? && Hashed(d, dir, 0, [name + more]).Some?
    requires dir.Dir? && Lists(d, dir, [], 0, dir.children.Keys, entries) && WalkOrdered(d, dir, [], 0, entries)
    ensures !Ascending(entries)
  {
    hide Hashed, Below, ValidTree, AtNames, Join;
    var below, sibling := [name, child], [name + more];
    var e := EntryOf(Join(below), Hashed(d, dir, 0, below).value);
    var g := EntryOf(Join(sibling), Hashed(d, dir, 0, sibling).value);
    HoldsIsListed(d, dir, entries, below, e);
    HoldsIsListed(d, dir, entries, sibling, g);
    PathsAndNames(name, more, child);
    var i :| 0 <= i < |entries| && entries[i] == e;
    var j :| 0 <= j < |entries| && entries[j] == g;
    assert j < i ==> InWalkOrder(d, dir, [], 0, entries[j], entries[i]);
    if j < i {
      var b, a :| AtNames(d, dir, [], 0, b, g) && AtNames(d, dir, [], 0, a, e) && NamesBefore(b, a);
      OnePlace(d, dir, a, below, e);
      OnePlace(d, dir, b, sibling, g);
      assert false;
    }
    LeqReflexive(e.path);
    assert !Leq(e.path, g.path);
    assert i < j;
  }

  lemma HoldsIsListed(d: Digest, dir: Node, entries: seq<Entry>, names: seq<Name>, e: Entry)
    requires ValidTree(dir) && dir.Dir? && Lists(d, dir, [], 0, dir.children.Keys, entries)
    requires Holds(d, dir, names, e)
    ensures e in entries
  {
    BelowMeans(d, dir, e);
  }

  /** An entry stands for one place only. */
  lemma OnePlace(d: Digest, dir: Node, a: seq<Name>, b: seq<Name>, e: Entry)
    requires ValidTree(dir) && AtNames(d, dir, [], 0, a, e) && Holds(d, dir, b, e)
    ensures a == b
  {
    HashedNamesValid(d, dir, 0, a);
    HashedNamesValid(d, dir, 0, b);
    JoinInjective(a, b);
  }

  lemma PathsAndNames(name: Name, more: Name, child: Name)
    requires more != [] && more[0] < SLASH
    ensures !Leq(Join([name, child]), Join([name + more]))
    ensures !NamesBefore([name + more], [name, child])
  {
    JoinPair(name, child);
    assert Join([name + more]) == name + more;
    hide Join;
    LeqSharedFront(name, [SLASH] + child, more);
    LeqSharedFront(name, more, []);
    assert name + [] == name;
  }

  lemma JoinPair(name: Name, child: Name)
    ensures Join([name, child]) == name + ([SLASH] + child)
  {
    assert [name, child][1..] == [child] && Join([child]) == child;
  }

  lemma {:induction false} LeqSharedFront(front: seq<int>, a: seq<int>, b: seq<int>)
    ensures Leq(front + a, front + b) <==> Leq(a, b)
  {
    if front == [] {
      assert front + a == a && front + b == b;
    } else {
      LeqSharedFront(front[1..], a, b);
      assert (front + a)[1..] == front[1..] + a && (front + b)[1..] == front[1..] + b;
    }
  }

  // -- where the manifest is ambiguous --------------------------------------------------------------

  ghost function OneFile(name: Name, content: seq<byte>): Node {
    Dir(map[name := File(false, content)])
  }

  ghost function TwoFiles(name: Name, content: seq<byte>, other: Name, second: seq<byte>): Node {
    Dir(map[name := File(false, content), other := File(false, second)])
  }

  /** Two plain files have the manifest of one file whose name embeds the second line. */
  lemma LineFeedConfuses(d: Digest, name: Name, content: seq<byte>, other: Name, second: seq<byte>)
    requires Lawful(d)
    requires ValidName(name) && ValidName(other) && name != other && Leq(name, other)
    requires name != NODE_MODULES && other != NODE_MODULES
    ensures var e := FileEntry(d, other, second);
      var a, b := TwoFiles(name, content, other, second), OneFile(name + [LF] + Head(e) + other, content);
      && ValidTree(a) && ValidTree(b) && !SameView(d, a, b)
      && exists m :: IsManifest(d, a, m) && IsManifest(d, b, m)
  {
    var e, g := FileEntry(d, name, content), FileEntry(d, other, second);
    var long := name + [LF] + Head(g) + other;
    var a, b := TwoFiles(name, content, other, second), OneFile(long, content);
    LongNameValid(name, g);
    hide Head, NODE_MODULES, IsHex, IsEntryList, SameView, Render, ValidTree, Hashed, ValidName, TwoFiles, OneFile;
    ViewsDiffer(d, name, content, other, second, long);
    TwoListed(d, name, content, other, second);
    OneListed(d, long, content);
    LineFeedMerges(e, g);
    assert IsManifest(d, b, Render([e, g]));
  }

  lemma TwoListed(d: Digest, name: Name, content: seq<byte>, other: Name, second: seq<byte>)
    requires ValidName(name) && ValidName(other) && name != other && Leq(name, other)
    requires name != NODE_MODULES && other != NODE_MODULES
    ensures ValidTree(TwoFiles(name, content, other, second))
    ensures var entries := [FileEntry(d, name, content), FileEntry(d, other, second)];
      IsEntryList(d, TwoFiles(name, content, other, second), entries)
  {
    hide NODE_MODULES, IsEntryList, ValidName;
    FlatList(d, TwoFiles(name, content, other, second), [FileEntry(d, name, content), FileEntry(d, other, second)]);
  }

  lemma OneListed(d: Digest, name: Name, content: seq<byte>)
    requires ValidName(name) && name != NODE_MODULES
    ensures ValidTree(OneFile(name, content))
    ensures IsEntryList(d, OneFile(name, content), [FileEntry(d, name, content)])
  {
    hide NODE_MODULES, IsEntryList, ValidName;
    FlatList(d, OneFile(name, content), [FileEntry(d, name, content)]);
  }

  lemma ViewsDiffer(d: Digest, name: Name, content: seq<byte>, other: Name, second: seq<byte>, long: Name)
    requires name != long && name != other && name != NODE_MODULES
    ensures !SameView(d, TwoFiles(name, content, other, second), OneFile(long, content))
  {
    hide NODE_MODULES;
    var a, b := TwoFiles(name, content, other, second), OneFile(long, content);
    assert Hashed(d, a, 0, [name]).Some? && Hashed(d, b, 0, [name]).None?;
  }

  /** The line of a file: digest and length of its contents and its path, between them `x` or `f`. */
  lemma FileLineReads(d: Digest, executable: bool, content: seq<byte>, path: seq<byte>)
    requires |content| <= U64_MAX
    ensures var leaf := LeafOf(d, File(executable, content));
      leaf.Some? && Line(EntryOf(path, leaf.value)) ==
        d(content) + [SP, if executable then 'x' as int else 'f' as int, SP] + Decimal(|content|) + [SP] + path + [LF]
  {
  }

  /** The line of a link: digest and length of its target, and its own path. */
  lemma LinkLineReads(d: Digest, target: seq<byte>, path: seq<byte>)
    ensures var leaf := LeafOf(d, Symlink(target));
      leaf.Some? && Line(EntryOf(path, leaf.value)) ==
        d(target) + [SP, 'l' as int, SP] + Decimal(|target|) + [SP] + path + [LF]
  {
  }

  function FileEntry(d: Digest, name: Name, content: seq<byte>): Entry {
    Entry(name, KIND_FILE, Min(|content|, U64_MAX), d(content))
  }

  lemma LongNameValid(name: Name, g: Entry)
    requires ValidName(name) && ValidName(g.path) && IsHex(g.digest) && g.kind == KIND_FILE
    ensures var long := name + [LF] + Head(g) + g.path; ValidName(long) && long != NODE_MODULES && |long| > |name|
  {
    NumberOfDecimal(g.len);
    assert |Head(g)| > 64;
  }

  ghost predicate Flat(dir: Node) {
    && dir.Dir? && NODE_MODULES !in dir.children
    && forall name :: name in dir.children ==> dir.children[name].File? && !dir.children[name].executable
  }

  lemma FlatList(d: Digest, dir: Node, entries: seq<Entry>)
    requires ValidTree(dir) && Flat(dir) && Ascending(entries) && DistinctPaths(entries)
    requires forall e :: e in entries <==>
               e.path in dir.children && e == FileEntry(d, e.path, dir.children[e.path].content)
    ensures IsEntryList(d, dir, entries)
  {
    forall e
      ensures e in entries <==> Below(d, dir, [], 0, dir.children.Keys, e)
    {
      BelowMeans(d, dir, e);
      if Below(d, dir, [], 0, dir.children.Keys, e) {
        var names :| Holds(d, dir, names, e);
        HashedInFlat(d, dir, names);
      }
      if e in entries {
        assert Join([e.path]) == e.path;
        assert Holds(d, dir, [e.path], e);
      }
    }
  }

  lemma HashedInFlat(d: Digest, dir: Node, names: seq<Name>)
    requires ValidTree(dir) && Flat(dir) && Hashed(d, dir, 0, names).Some?
    ensures |names| == 1 && names[0] in dir.children && Hashed(d, dir, 0, names) == LeafOf(d, dir.children[names[0]])
  {
    HashedNamesValid(d, dir, 0, names);
    OnlyDirsLeadOn(d, dir.children[names[0]], 1, names[1..]);
  }

  lemma OnlyDirsLeadOn(d: Digest, node: Node, depth: nat, names: seq<Name>)
    requires !node.Dir?
    ensures Hashed(d, node, depth, names).None?
  {
  }

}
