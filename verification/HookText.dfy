/**
 The hook list as text: printed into a block's detail by the install-script gate, stored in an
 audit row, and read back by `split_reason` and `parse_hooks`.
 */
module HookText {
  import Json
  import opened Basics
  import opened Policy
  import opened Filter
  import opened Audit

  /** The needle occurs in the text at this offset. */
  predicate Matches(s: string, at: nat, needle: string) {
    at + |needle| <= |s| && forall i :: 0 <= i < |needle| ==> s[at + i] == needle[i]
  }

  lemma MatchesSlice(s: string, at: nat, needle: string)
    requires Matches(s, at, needle)
    ensures s[at..at + |needle|] == needle
  {
    forall i | 0 <= i < |needle|
      ensures s[at..at + |needle|][i] == needle[i]
    {
      assert s[at + i] == needle[i];
    }
  }

  lemma MatchesAt(s: string, at: nat, needle: string)
    requires Matches(s, at, needle)
    ensures forall k :: at <= k < at + |needle| ==> s[k] == needle[k - at]
  {
    forall k | at <= k < at + |needle|
      ensures s[k] == needle[k - at]
    {
      assert s[at + (k - at)] == needle[k - at];
    }
  }

  /** `str::find` from an offset: the first occurrence at or after it. */
  function Find(s: string, needle: string, from: nat): (r: Option<nat>)
    requires from <= |s|
    ensures r.Some? ==> from <= r.value && Matches(s, r.value, needle)
                        && forall i :: from <= i < r.value ==> !Matches(s, i, needle)
    ensures r.None? ==> forall i :: from <= i ==> !Matches(s, i, needle)
    decreases |s| - from
  {
    if Matches(s, from, needle) then Some(from)
    else if from == |s| then None
    else Find(s, needle, from + 1)
  }

  function Header(hook: string): string {
    hook + ": "
  }

  predicate AfterSeparator(list: string, at: nat) {
    at == 0 || (2 <= at <= |list| && list[at - 2] == ';' && list[at - 1] == ' ')
  }

  /** Where the hook starts a new pair: at the start of the list or right after `"; "`. */
  predicate IsStart(list: string, at: nat, hook: string) {
    Matches(list, at, Header(hook)) && AfterSeparator(list, at)
  }

  function HookAt(list: string, at: nat): Option<string> {
    if IsStart(list, at, INSTALL_HOOKS[0]) then Some(INSTALL_HOOKS[0])
    else if IsStart(list, at, INSTALL_HOOKS[1]) then Some(INSTALL_HOOKS[1])
    else if IsStart(list, at, INSTALL_HOOKS[2]) then Some(INSTALL_HOOKS[2])
    else None
  }

  type Start = (nat, string)

  /** All starts at or after an offset, in order. */
  function Starts(list: string, from: nat): seq<Start>
    decreases |list| - from
  {
    if from >= |list| then []
    else (if HookAt(list, from).Some? then [(from, HookAt(list, from).value)] else []) + Starts(list, from + 1)
  }

  function CommandEnd(list: string, starts: seq<Start>): nat {
    if |starts| > 1 then SaturatingSub(starts[1].0, 2) else |list|
  }

  /** The first pair, unless its bounds cross. */
  function FirstPair(list: string, starts: seq<Start>): seq<Hook>
    requires starts != []
  {
    var from, end := starts[0].0 + |starts[0].1| + 2, CommandEnd(list, starts);
    if from > end || end > |list| then [] else [Hook(starts[0].1, list[from..end])]
  }

  /** The pairs cut out at the given starts. */
  function Cut(list: string, starts: seq<Start>): seq<Hook> {
    if starts == [] then [] else FirstPair(list, starts) + Cut(list, starts[1..])
  }

  function ParseList(list: string): seq<Hook> {
    Cut(list, Starts(list, 0))
  }

  // -- hook headers ------------------------------------------------------------------------------------

  predicate PlainName(hook: string) {
    && |hook| > 0
    && (forall i :: 0 <= i < |hook| ==> hook[i] != ';' && hook[i] != ':' && hook[i] != ' ')
    && (forall i :: 0 < i < |hook| ==> hook[i] != hook[0])
  }

  lemma PlainHooks()
    ensures forall hook :: hook in INSTALL_HOOKS ==> PlainName(hook)
  {
    HookNamesAre();
    assert PlainName("preinstall");
    assert PlainName("install");
    assert PlainName("postinstall");
    forall hook | hook in INSTALL_HOOKS
      ensures PlainName(hook)
    {
      hide PlainName;
      assert hook == INSTALL_HOOKS[0] || hook == INSTALL_HOOKS[1] || hook == INSTALL_HOOKS[2];
    }
  }

  lemma HeaderFacts(hook: string)
    requires hook in INSTALL_HOOKS
    ensures var header := Header(hook);
      && |header| == |hook| + 2 > 2 && header[..|hook|] == hook
      && (forall i :: 0 <= i < |header| ==> (header[i] == ':' <==> i == |hook|))
      && (forall i :: 0 <= i < |header| ==> (header[i] == ' ' <==> i == |hook| + 1))
      && (forall i :: 0 <= i < |header| ==> header[i] != ';')
      && (forall i :: 0 < i < |header| ==> header[i] != header[0])
  {
    PlainHooks();
    hide INSTALL_HOOKS;
  }

  lemma HeaderNoShorter(s: string, at: nat, a: string, b: string)
    requires a in INSTALL_HOOKS && b in INSTALL_HOOKS
    requires Matches(s, at, Header(a)) && Matches(s, at, Header(b))
    ensures |a| >= |b|
  {
    HeaderFacts(a);
    HeaderFacts(b);
    hide INSTALL_HOOKS, Header;
    var m := |a|;
    assert Header(a)[m] == ':' && s[at + m] == ':';
    assert m < |Header(b)| ==> Header(b)[m] == s[at + m];
  }

  /** Two hook headers at one place are the same header. */
  lemma OneHeader(s: string, at: nat, a: string, b: string)
    requires a in INSTALL_HOOKS && b in INSTALL_HOOKS
    requires Matches(s, at, Header(a)) && Matches(s, at, Header(b))
    ensures a == b
  {
    hide INSTALL_HOOKS;
    HeaderNoShorter(s, at, a, b);
    HeaderNoShorter(s, at, b, a);
    MatchesSlice(s, at, Header(a));
    MatchesSlice(s, at, Header(b));
    HeaderFacts(a);
    HeaderFacts(b);
  }

  lemma HookAtMeans(list: string, at: nat, hook: string)
    requires hook in INSTALL_HOOKS
    ensures HookAt(list, at) == Some(hook) <==> IsStart(list, at, hook)
  {
    var found := HookAt(list, at);
    HookAtKnown(list, at);
    if found.Some? && IsStart(list, at, hook) {
      hide INSTALL_HOOKS, HookAt;
      OneHeader(list, at, hook, found.value);
    } else {
      hide IsStart;
      HookNamesAre();
      hide INSTALL_HOOKS;
    }
  }

  lemma HookAtKnown(list: string, at: nat)
    ensures HookAt(list, at).Some? ==>
              HookAt(list, at).value in INSTALL_HOOKS && IsStart(list, at, HookAt(list, at).value)
  {
    HookNamesAre();
    hide INSTALL_HOOKS, IsStart;
  }

  /** Occurrences of one header do not overlap, so skipping past a match misses none. */
  lemma NoOverlap(list: string, at: nat, hook: string, p: nat)
    requires hook in INSTALL_HOOKS
    requires Matches(list, at, Header(hook)) && at < p < at + |Header(hook)|
    ensures !Matches(list, p, Header(hook))
  {
    HeaderFacts(hook);
    hide Header, INSTALL_HOOKS;
    var header := Header(hook);
    assert list[at + (p - at)] == header[p - at];
    assert list[p + 0] != header[0];
  }

  // -- the parser as loops -----------------------------------------------------------------------------

  ghost predicate Ascending(starts: seq<Start>) {
    forall i, j :: 0 <= i < j < |starts| ==> starts[i].0 < starts[j].0
  }

  /** `sort_by_key` on positions that are all different. */
  function Insert(x: Start, sorted: seq<Start>): (r: seq<Start>)
    requires Ascending(sorted) && forall y :: y in sorted ==> y.0 != x.0
    ensures Ascending(r)
    ensures forall y :: y in r <==> y == x || y in sorted
  {
    if sorted == [] || x.0 < sorted[0].0 then [x] + sorted
    else
      var more := Insert(x, sorted[1..]);
      assert forall y :: y in more ==> y.0 > sorted[0].0;
      assert forall y :: y in sorted <==> y == sorted[0] || y in sorted[1..];
      [sorted[0]] + more
  }

  /** A start the scan has found: of the hooks done before, or of this one up to an offset. */
  ghost predicate Seen(list: string, done: seq<string>, hook: string, from: nat, at: nat, h: string) {
    IsStart(list, at, h) && (h in done || (h == hook && at < from))
  }

  ghost predicate Found(list: string, starts: seq<Start>, done: seq<string>, hook: string, from: nat) {
    && Ascending(starts)
    && forall y: Start :: y in starts <==> Seen(list, done, hook, from, y.0, y.1)
  }

  ghost predicate KnownHooks(hooks: seq<string>) {
    forall h :: h in hooks ==> h in INSTALL_HOOKS
  }

  /** Up to the end of a match, this hook starts at most at the match. */
  lemma SeenNext(list: string, done: seq<string>, hook: string, from: nat, at: nat, p: nat, h: string)
    requires hook in INSTALL_HOOKS && from <= at && Matches(list, at, Header(hook))
    requires forall i :: from <= i < at ==> !Matches(list, i, Header(hook))
    ensures Seen(list, done, hook, at + |Header(hook)|, p, h)
            <==> Seen(list, done, hook, from, p, h) || (p == at && h == hook && IsStart(list, at, hook))
  {
    hide INSTALL_HOOKS, Header, Matches, AfterSeparator;
    HeaderFacts(hook);
    if h == hook && at < p < at + |Header(hook)| {
      NoOverlap(list, at, hook, p);
    }
  }

  lemma FreshStart(list: string, starts: seq<Start>, done: seq<string>, hook: string, from: nat, at: nat)
    requires hook in INSTALL_HOOKS && KnownHooks(done) && from <= at
    requires Found(list, starts, done, hook, from) && hook !in done
    requires IsStart(list, at, hook)
    ensures forall y :: y in starts ==> y.0 != at
  {
    hide INSTALL_HOOKS, Matches, AfterSeparator;
    forall y | y in starts
      ensures y.0 != at
    {
      assert Seen(list, done, hook, from, y.0, y.1);
      if y.0 == at {
        assert y.1 != hook && y.1 in INSTALL_HOOKS;
        OneHeader(list, at, y.1, hook);
      }
    }
  }

  /** The scan for one hook, by repeated `find`. */
  method ScanHook(list: string, before: seq<Start>, ghost done: seq<string>, hook: string) returns (starts: seq<Start>)
    requires hook in INSTALL_HOOKS && hook !in done && KnownHooks(done)
    requires Found(list, before, done, hook, 0)
    ensures Found(list, starts, done, hook, |list|)
  {
    hide INSTALL_HOOKS, Header, Matches, IsStart, Seen, KnownHooks;
    starts := before;
    var from := 0;
    var found := Find(list, Header(hook), from);
    while found.Some?
      invariant from <= |list|
      invariant found == Find(list, Header(hook), from)
      invariant Found(list, starts, done, hook, from)
      decreases |list| - from
    {
      var at := found.value;
      forall y: Start
        ensures Seen(list, done, hook, at + |Header(hook)|, y.0, y.1)
                <==> Seen(list, done, hook, from, y.0, y.1) || (y == (at, hook) && IsStart(list, at, hook))
      {
        SeenNext(list, done, hook, from, at, y.0, y.1);
      }
      if IsStart(list, at, hook) {
        FreshStart(list, starts, done, hook, from, at);
        starts := Insert((at, hook), starts);
      }
      FitsIn(list, at, hook);
      from := at + |Header(hook)|;
      found := Find(list, Header(hook), from);
    }
    NoneLeft(list, starts, done, hook, from);
  }

  lemma FitsIn(list: string, at: nat, hook: string)
    requires hook in INSTALL_HOOKS && Matches(list, at, Header(hook))
    ensures at < at + |Header(hook)| <= |list|
  {
    HeaderFacts(hook);
    hide INSTALL_HOOKS, Header;
  }

  lemma NoneLeft(list: string, starts: seq<Start>, done: seq<string>, hook: string, from: nat)
    requires from <= |list| && Found(list, starts, done, hook, from)
    requires forall i :: from <= i ==> !Matches(list, i, Header(hook))
    ensures Found(list, starts, done, hook, |list|)
  {
    hide Matches, Header, Ascending, AfterSeparator;
    forall y: Start
      ensures Seen(list, done, hook, |list|, y.0, y.1) <==> Seen(list, done, hook, from, y.0, y.1)
    {
    }
    hide Seen;
  }

  ghost predicate IsStartOf(list: string, from: nat, at: nat, h: string) {
    from <= at < |list| && HookAt(list, at) == Some(h)
  }

  lemma {:induction false} StartsExactly(list: string, from: nat)
    ensures Ascending(Starts(list, from))
    ensures forall y: Start :: y in Starts(list, from) <==> IsStartOf(list, from, y.0, y.1)
    decreases |list| - from
  {
    hide HookAt;
    if from < |list| {
      StartsExactly(list, from + 1);
      var later := Starts(list, from + 1);
      assert forall y :: y in later ==> y.0 > from;
      var found := HookAt(list, from);
      assert Starts(list, from) == (if found.Some? then [(from, found.value)] else []) + later;
      forall y: Start
        ensures y in Starts(list, from) <==> IsStartOf(list, from, y.0, y.1)
      {
        assert y in later <==> IsStartOf(list, from + 1, y.0, y.1);
      }
    }
  }

  /** Ascending lists with the same starts are the same list. */
  lemma {:induction false} SameStarts(a: seq<Start>, b: seq<Start>)
    requires Ascending(a) && Ascending(b)
    requires forall y :: y in a <==> y in b
    ensures a == b
  {
    assert a != [] ==> a[0] in b;
    assert b != [] ==> b[0] in a;
    if a != [] && b != [] {
      assert a[0] == b[0];
      forall y
        ensures y in a[1..] <==> y in b[1..]
      {
        assert y in a <==> y == a[0] || y in a[1..];
        assert y in b <==> y == b[0] || y in b[1..];
        assert y in a[1..] ==> y.0 > a[0].0;
        assert y in b[1..] ==> y.0 > b[0].0;
      }
      SameStarts(a[1..], b[1..]);
      assert a == [a[0]] + a[1..] && b == [b[0]] + b[1..];
    }
  }

  lemma ScanComplete(list: string, starts: seq<Start>, hook: string)
    requires Found(list, starts, INSTALL_HOOKS, hook, 0)
    ensures starts == Starts(list, 0)
  {
    hide HookAt, IsStart, INSTALL_HOOKS, Starts;
    StartsExactly(list, 0);
    var all := Starts(list, 0);
    forall y
      ensures y in starts <==> y in all
    {
      StartMeans(list, y.0, y.1);
    }
    SameStarts(starts, all);
  }

  lemma StartMeans(list: string, at: nat, h: string)
    ensures IsStart(list, at, h) && h in INSTALL_HOOKS <==> at < |list| && HookAt(list, at) == Some(h)
  {
    hide HookAt, INSTALL_HOOKS, AfterSeparator;
    HookAtKnown(list, at);
    if h in INSTALL_HOOKS {
      HookAtMeans(list, at, h);
      HeaderFacts(h);
    }
  }

  /** `parse_hooks` on the list after the marker. */
  method ParseHookList(list: string) returns (hooks: seq<Hook>)
    ensures hooks == ParseList(list)
  {
    HookNamesAre();
    hide INSTALL_HOOKS, IsStart, Starts, Cut;
    var starts: seq<Start> := [];
    for n := 0 to |INSTALL_HOOKS|
      invariant Found(list, starts, INSTALL_HOOKS[..n], "", 0)
    {
      var hook := INSTALL_HOOKS[n];
      starts := ScanHook(list, starts, INSTALL_HOOKS[..n], hook);
      assert INSTALL_HOOKS[..n] + [hook] == INSTALL_HOOKS[..n + 1];
      NextHook(list, starts, INSTALL_HOOKS[..n], hook);
    }
    assert INSTALL_HOOKS[..3] == INSTALL_HOOKS;
    ScanComplete(list, starts, "");
    hooks := CutPairs(list, starts);
  }

  lemma NextHook(list: string, starts: seq<Start>, done: seq<string>, hook: string)
    requires hook in INSTALL_HOOKS
    requires Found(list, starts, done, hook, |list|)
    ensures Found(list, starts, done + [hook], "", 0)
  {
    hide INSTALL_HOOKS, Ascending, AfterSeparator;
    HeaderFacts(hook);
    forall y: Start
      ensures Seen(list, done + [hook], "", 0, y.0, y.1) <==> Seen(list, done, hook, |list|, y.0, y.1)
    {
    }
    hide Seen;
  }

  lemma CutAt(list: string, starts: seq<Start>, index: nat, hooks: seq<Hook>)
    requires index < |starts|
    ensures hooks + FirstPair(list, starts[index..]) + Cut(list, starts[index + 1..]) ==
              hooks + Cut(list, starts[index..])
  {
    hide FirstPair;
    assert starts[index..][1..] == starts[index + 1..];
    Associative(hooks, FirstPair(list, starts[index..]), Cut(list, starts[index + 1..]));
  }

  lemma Associative(a: seq<Hook>, b: seq<Hook>, c: seq<Hook>)
    ensures a + b + c == a + (b + c)
  {
  }

  lemma FirstPairAt(list: string, starts: seq<Start>, index: nat)
    requires index < |starts|
    ensures var from := starts[index].0 + |starts[index].1| + 2;
      var end := if index + 1 < |starts| then SaturatingSub(starts[index + 1].0, 2) else |list|;
      FirstPair(list, starts[index..]) ==
        if from > end || end > |list| then [] else [Hook(starts[index].1, list[from..end])]
  {
  }

  method CutPairs(list: string, starts: seq<Start>) returns (hooks: seq<Hook>)
    ensures hooks == Cut(list, starts)
  {
    hooks := [];
    assert starts[0..] == starts;
    for index := 0 to |starts|
      invariant hooks + Cut(list, starts[index..]) == Cut(list, starts)
    {
      CutAt(list, starts, index, hooks);
      FirstPairAt(list, starts, index);
      hide Cut, FirstPair;
      var from := starts[index].0 + |starts[index].1| + 2;
      var end := if index + 1 < |starts| then SaturatingSub(starts[index + 1].0, 2) else |list|;
      if from > end || end > |list| {
        continue;
      }
      hooks := hooks + [Hook(starts[index].1, list[from..end])];
    }
  }

  // -- printing and parsing ----------------------------------------------------------------------------

  function Separator(hook: string): string {
    "; " + Header(hook)
  }

  /** The command contains no `"; "` followed by a hook name and `": "`. */
  ghost predicate IsSafe(command: string) {
    forall p: nat, hook :: hook in INSTALL_HOOKS ==> !Matches(command, p, Separator(hook))
  }

  /** What one pair puts in front of the rest of the list. */
  function Pair(h: Hook): string {
    Header(h.name) + h.command
  }

  lemma SeparatorFacts(hook: string)
    requires hook in INSTALL_HOOKS
    ensures |Separator(hook)| == |Header(hook)| + 2 > 4
    ensures Separator(hook)[0] == ';' && Separator(hook)[1] == ' '
    ensures forall i :: 0 <= i < |Header(hook)| ==> Separator(hook)[i + 2] == Header(hook)[i]
    ensures forall i :: 0 < i < |Separator(hook)| ==> Separator(hook)[i] != ';'
  {
    HeaderFacts(hook);
    hide INSTALL_HOOKS, Header;
  }

  /** Past the first offset, a hook starts where its header is preceded by the separator. */
  lemma StartIsSeparated(list: string, p: nat, hook: string)
    requires hook in INSTALL_HOOKS && p > 0
    ensures IsStart(list, p, hook) <==> p >= 2 && Matches(list, p - 2, Separator(hook))
  {
    hide INSTALL_HOOKS, Header, Separator;
    SeparatorFacts(hook);
    var header, sep := Header(hook), Separator(hook);
    if IsStart(list, p, hook) {
      forall i | 0 <= i < |sep|
        ensures list[p - 2 + i] == sep[i]
      {
        assert i >= 2 ==> list[p + (i - 2)] == header[i - 2] && sep[(i - 2) + 2] == header[i - 2];
      }
    }
    if p >= 2 && Matches(list, p - 2, sep) {
      assert list[p - 2 + 0] == sep[0] && list[p - 2 + 1] == sep[1];
      forall i | 0 <= i < |header|
        ensures list[p + i] == header[i]
      {
        assert list[p - 2 + (i + 2)] == sep[i + 2];
      }
    }
  }

  /** An occurrence of the separator that begins inside a pair lies inside its command. */
  lemma SeparatorInCommand(front: string, command: string, rest: string, s: nat, hook: string)
    requires hook in INSTALL_HOOKS && ';' !in front
    requires rest == "" || rest[0] == ';'
    requires s < |front + command| && Matches(front + command + rest, s, Separator(hook))
    ensures s >= |front| && Matches(command, s - |front|, Separator(hook))
  {
    hide INSTALL_HOOKS, Separator;
    SeparatorFacts(hook);
    var list, sep, end := front + command + rest, Separator(hook), |front + command|;
    MatchesAt(list, s, sep);
    assert list[s] == ';';
    assert forall i :: 0 <= i < |front| ==> list[i] == front[i];
    assert rest != "" ==> list[end] == ';';
    forall i | 0 <= i < |sep|
      ensures command[s - |front| + i] == sep[i]
    {
      assert list[s + i] == sep[i];
    }
  }

  /** Inside a pair (and the separator after it) hooks start only where its command is unsafe. */
  lemma StartInsidePair(h: Hook, rest: string, p: nat, hook: string)
    requires h.name in INSTALL_HOOKS && hook in INSTALL_HOOKS
    requires rest == "" || (|rest| >= 2 && rest[0] == ';' && rest[1] == ' ')
    requires 0 < p < |Pair(h)| + (if rest == "" then 0 else 2)
    requires IsStart(Pair(h) + rest, p, hook)
    ensures !IsSafe(h.command)
  {
    hide INSTALL_HOOKS, Separator, IsStart, Header, Matches;
    var front := Header(h.name);
    HeaderFacts(h.name);
    StartIsSeparated(Pair(h) + rest, p, hook);
    assert Pair(h) + rest == front + h.command + rest;
    SeparatorInCommand(front, h.command, rest, p - 2, hook);
  }

  lemma UnsafeStart(h: Hook, rest: string, q: nat, hook: string)
    requires h.name in INSTALL_HOOKS && hook in INSTALL_HOOKS
    requires Matches(h.command, q, Separator(hook))
    ensures IsStart(Pair(h) + rest, |Header(h.name)| + q + 2, hook)
    ensures |Header(h.name)| + q + 2 < |Pair(h)|
  {
    hide INSTALL_HOOKS, Separator, IsStart, Header;
    var front, list, sep := Header(h.name), Pair(h) + rest, Separator(hook);
    SeparatorFacts(hook);
    forall i | 0 <= i < |sep|
      ensures list[|front| + q + i] == sep[i]
    {
      assert h.command[q + i] == sep[i];
      assert list[|front| + (q + i)] == h.command[q + i];
    }
    StartIsSeparated(list, |front| + q + 2, hook);
  }

  ghost predicate NoStarts(list: string, from: nat, until: nat) {
    forall p :: from <= p < until ==> HookAt(list, p).None?
  }

  lemma {:induction false} NoStartsBetween(list: string, from: nat, until: nat)
    requires from <= until <= |list| && NoStarts(list, from, until)
    ensures Starts(list, from) == Starts(list, until)
    decreases until - from
  {
    if from < until {
      hide HookAt;
      NoStartsBetween(list, from + 1, until);
    }
  }

  lemma {:induction false} StartsGrow(list: string, from: nat, until: nat)
    requires from <= until <= |list|
    ensures |Starts(list, from)| >= |Starts(list, until)|
    ensures !NoStarts(list, from, until) ==> |Starts(list, from)| > |Starts(list, until)|
    decreases until - from
  {
    if from < until {
      hide HookAt;
      StartsGrow(list, from + 1, until);
    }
  }

  function Shift(starts: seq<Start>, offset: nat): (r: seq<Start>)
    ensures |r| == |starts|
    ensures forall i :: 0 <= i < |starts| ==> r[i] == (starts[i].0 + offset, starts[i].1)
  {
    seq(|starts|, i requires 0 <= i < |starts| => (starts[i].0 + offset, starts[i].1))
  }

  predicate EndsWithSeparator(front: string) {
    |front| >= 2 && front[|front| - 2] == ';' && front[|front| - 1] == ' '
  }

  predicate StartsPlainly(rest: string) {
    rest != "" && rest[0] != ';' && rest[0] != ' '
  }

  /** A hook starts in the tail of a list exactly where it starts in the tail alone. */
  lemma IsStartAtTail(front: string, rest: string, q: nat, hook: string)
    requires EndsWithSeparator(front) && StartsPlainly(rest)
    ensures IsStart(front + rest, |front| + q, hook) <==> IsStart(rest, q, hook)
  {
    var list, at, header := front + rest, |front| + q, Header(hook);
    hide Header;
    if Matches(list, at, header) {
      forall i | 0 <= i < |header|
        ensures rest[q + i] == header[i]
      {
        assert list[at + i] == header[i];
      }
    }
    if Matches(rest, q, header) {
      forall i | 0 <= i < |header|
        ensures list[at + i] == header[i]
      {
        assert rest[q + i] == header[i];
      }
    }
    assert |header| >= 0;
    hide Matches;
    assert q <= |rest| ==> (q > 0 ==> list[at - 1] == rest[q - 1]) && (q > 1 ==> list[at - 2] == rest[q - 2]);
  }

  lemma HookAtTail(front: string, rest: string, q: nat)
    requires EndsWithSeparator(front) && StartsPlainly(rest)
    ensures HookAt(front + rest, |front| + q) == HookAt(rest, q)
  {
    HookNamesAre();
    hide INSTALL_HOOKS, IsStart, EndsWithSeparator, StartsPlainly;
    IsStartAtTail(front, rest, q, INSTALL_HOOKS[0]);
    IsStartAtTail(front, rest, q, INSTALL_HOOKS[1]);
    IsStartAtTail(front, rest, q, INSTALL_HOOKS[2]);
  }

  lemma {:induction false} StartsShift(front: string, rest: string, q: nat)
    requires EndsWithSeparator(front) && StartsPlainly(rest) && q <= |rest|
    ensures Starts(front + rest, |front| + q) == Shift(Starts(rest, q), |front|)
    decreases |rest| - q
  {
    if q < |rest| {
      hide HookAt, EndsWithSeparator, StartsPlainly, Starts, Shift;
      HookAtTail(front, rest, q);
      StartsShift(front, rest, q + 1);
      hide StartsHere;
      StartsUnfold(rest, q);
      StartsUnfold(front + rest, |front| + q);
      ShiftHere(rest, q, front + rest, |front|);
      ShiftConcat(StartsHere(rest, q), Starts(rest, q + 1), |front|);
    }
  }

  function StartsHere(list: string, at: nat): seq<Start> {
    if HookAt(list, at).Some? then [(at, HookAt(list, at).value)] else []
  }

  lemma StartsUnfold(list: string, from: nat)
    requires from < |list|
    ensures Starts(list, from) == StartsHere(list, from) + Starts(list, from + 1)
  {
    hide HookAt;
  }

  lemma ShiftHere(rest: string, q: nat, list: string, offset: nat)
    requires HookAt(list, offset + q) == HookAt(rest, q)
    ensures StartsHere(list, offset + q) == Shift(StartsHere(rest, q), offset)
  {
    hide HookAt;
  }

  lemma ShiftConcat(a: seq<Start>, b: seq<Start>, offset: nat)
    ensures Shift(a + b, offset) == Shift(a, offset) + Shift(b, offset)
  {
  }

  lemma {:induction false} CutShift(front: string, rest: string, starts: seq<Start>)
    requires forall i :: 0 < i < |starts| ==> starts[i].0 >= 2
    ensures Cut(front + rest, Shift(starts, |front|)) == Cut(rest, starts)
  {
    if starts != [] {
      FirstPairShift(front, rest, starts);
      hide FirstPair, Shift;
      CutShift(front, rest, starts[1..]);
    }
  }

  lemma FirstPairShift(front: string, rest: string, starts: seq<Start>)
    requires starts != [] && (|starts| > 1 ==> starts[1].0 >= 2)
    ensures Shift(starts, |front|)[1..] == Shift(starts[1..], |front|)
    ensures FirstPair(front + rest, Shift(starts, |front|)) == FirstPair(rest, starts)
  {
    var from, end := starts[0].0 + |starts[0].1| + 2, CommandEnd(rest, starts);
    if from <= end <= |rest| {
      assert (front + rest)[|front| + from..|front| + end] == rest[from..end];
    }
  }

  /** Two starts leave room for the header of the first and the separator of the second. */
  lemma FarApart(list: string, a: nat, g: string, b: nat, h: string)
    requires a < b && HookAt(list, a) == Some(g) && HookAt(list, b) == Some(h)
    ensures a + |g| + 2 <= b - 2
  {
    HookAtKnown(list, a);
    HookAtKnown(list, b);
    HeaderFacts(g);
    hide HookAt, INSTALL_HOOKS, Header;
    var header := Header(g);
    MatchesAt(list, a, header);
    assert list[a] == header[0] && header[0] != ' ';
  }

  /** Starts are far enough apart that none is skipped. */
  lemma {:induction false} NothingSkipped(list: string, from: nat)
    ensures |Cut(list, Starts(list, from))| == |Starts(list, from)|
    decreases |list| - from
  {
    if from < |list| {
      hide HookAt, INSTALL_HOOKS, IsStart;
      NothingSkipped(list, from + 1);
      var later := Starts(list, from + 1);
      if HookAt(list, from).Some? {
        var first := (from, HookAt(list, from).value);
        assert Starts(list, from) == [first] + later;
        assert ([first] + later)[1..] == later;
        hide FirstPair, Starts;
        FirstIsCut(list, first, later);
      } else {
        assert Starts(list, from) == later;
      }
    }
  }

  lemma FirstIsCut(list: string, first: Start, later: seq<Start>)
    requires first.0 < |list| && later == Starts(list, first.0 + 1) && HookAt(list, first.0) == Some(first.1)
    ensures |FirstPair(list, [first] + later)| == 1
  {
    hide HookAt, INSTALL_HOOKS, IsStart, Starts;
    HookAtKnown(list, first.0);
    PairFits(list, first.0, first.1);
    StartsExactly(list, first.0 + 1);
    if later != [] {
      assert later[0] in later && IsStartOf(list, first.0 + 1, later[0].0, later[0].1);
      FarApart(list, first.0, first.1, later[0].0, later[0].1);
    }
  }

  lemma PairFits(list: string, at: nat, hook: string)
    requires hook in INSTALL_HOOKS && IsStart(list, at, hook)
    ensures at + |hook| + 2 <= |list|
  {
    HeaderFacts(hook);
  }

  lemma JoinShape(hooks: seq<Hook>)
    requires hooks != []
    ensures |hooks| == 1 ==> JoinHooks(hooks) == Pair(hooks[0])
    ensures |hooks| > 1 ==> JoinHooks(hooks) == Pair(hooks[0]) + "; " + JoinHooks(hooks[1..])
  {
  }

  lemma EndsNothing(front: string)
    ensures front + "" == front
  {
  }

  lemma EndsWith(front: string, middle: string, end: string)
    ensures front + (middle + end) == front + middle + end
  {
  }

  /** A joined list starts with the header of its first hook. */
  lemma JoinStarts(hooks: seq<Hook>)
    requires hooks != [] && hooks[0].name in INSTALL_HOOKS
    ensures HookAt(JoinHooks(hooks), 0) == Some(hooks[0].name) && StartsPlainly(JoinHooks(hooks))
  {
    hide *;
    var h := hooks[0];
    JoinShape(hooks);
    var more := if |hooks| > 1 then "; " + JoinHooks(hooks[1..]) else "";
    EndsNothing(Pair(h));
    EndsWith(Pair(h), "; ", JoinHooks(hooks[1..]));
    PairStarts(h, more);
    HookAtMeans(Pair(h) + more, 0, h.name);
  }

  lemma PairStarts(h: Hook, more: string)
    requires h.name in INSTALL_HOOKS
    ensures IsStart(Pair(h) + more, 0, h.name) && StartsPlainly(Pair(h) + more)
  {
    HeaderFacts(h.name);
    hide INSTALL_HOOKS, Header;
    assert (Pair(h) + more)[0] == Header(h.name)[0];
  }

  ghost predicate KnownNames(hooks: seq<Hook>) {
    forall h :: h in hooks ==> h.name in INSTALL_HOOKS
  }

  ghost predicate AllSafe(hooks: seq<Hook>) {
    forall h :: h in hooks ==> IsSafe(h.command)
  }

  /**
   Parsing a printed list gives back the hooks and commands, in order, exactly when no command
   contains `"; "` followed by a hook name and `": "`.
   */
  lemma ParsingUndoesPrinting(hooks: seq<Hook>)
    requires hooks != [] && KnownNames(hooks)
    ensures ParseList(JoinHooks(hooks)) == hooks <==> AllSafe(hooks)
  {
    PrintedStarts(hooks);
    NothingSkipped(JoinHooks(hooks), 0);
    hide JoinHooks, AllSafe, Starts, Cut;
  }

  /** Unsafe commands add starts, safe ones do not. */
  lemma {:induction false} PrintedStarts(hooks: seq<Hook>)
    requires hooks != [] && KnownNames(hooks)
    ensures |Starts(JoinHooks(hooks), 0)| >= |hooks|
    ensures AllSafe(hooks) ==> ParseList(JoinHooks(hooks)) == hooks
    ensures !AllSafe(hooks) ==> |Starts(JoinHooks(hooks), 0)| > |hooks|
  {
    hide HookAt, IsSafe, JoinHooks, INSTALL_HOOKS, Starts, ParseList, Pair, StartsPlainly;
    var list, h := JoinHooks(hooks), hooks[0];
    JoinShape(hooks);
    JoinStarts(hooks);
    if |hooks| == 1 {
      LastPair(h);
      assert hooks == [h];
      assert AllSafe(hooks) <==> IsSafe(h.command);
    } else {
      var tail := hooks[1..];
      PrintedStarts(tail);
      JoinStarts(tail);
      FirstOfMany(h, JoinHooks(tail));
      assert hooks == [h] + tail;
      assert AllSafe(hooks) <==> IsSafe(h.command) && AllSafe(tail);
    }
  }

  lemma LastPair(h: Hook)
    requires h.name in INSTALL_HOOKS
    requires HookAt(Pair(h), 0) == Some(h.name)
    ensures |Starts(Pair(h), 0)| >= 1
    ensures IsSafe(h.command) ==> ParseList(Pair(h)) == [h]
    ensures !IsSafe(h.command) ==> |Starts(Pair(h), 0)| > 1
  {
    var list := Pair(h);
    HeaderFacts(h.name);
    InsidePair(h, "");
    assert list + "" == list;
    assert list[|h.name| + 2..] == h.command;
    hide HookAt, IsSafe, INSTALL_HOOKS, Header, NoStarts, Pair;
    assert Starts(list, 0) == [(0, h.name)] + Starts(list, 1);
    StartsGrow(list, 1, |list|);
    if IsSafe(h.command) {
      NoStartsBetween(list, 1, |list|);
      assert Starts(list, 0) == [(0, h.name)];
      OnlyPair(h, list);
    }
  }

  lemma OnlyPair(h: Hook, list: string)
    requires |list| >= |h.name| + 2 && list[|h.name| + 2..] == h.command
    ensures Cut(list, [(0, h.name)]) == [h]
  {
    var starts := [(0, h.name)];
    assert starts[1..] == [];
    assert list[|h.name| + 2..|list|] == list[|h.name| + 2..];
    assert FirstPair(list, starts) == [h];
  }

  lemma FirstOfMany(h: Hook, rest: string)
    requires h.name in INSTALL_HOOKS
    requires StartsPlainly(rest) && HookAt(rest, 0).Some?
    requires HookAt(Pair(h) + "; " + rest, 0) == Some(h.name)
    ensures var list := Pair(h) + "; " + rest;
      && |Starts(list, 0)| >= 1 + |Starts(rest, 0)|
      && (IsSafe(h.command) ==> ParseList(list) == [h] + ParseList(rest))
      && (!IsSafe(h.command) ==> |Starts(list, 0)| > 1 + |Starts(rest, 0)|)
  {
    hide HookAt, IsSafe, INSTALL_HOOKS, Header, NoStarts, EndsWithSeparator, Starts, StartsPlainly, ParseList, Pair;
    FrontFacts(h, rest);
    InsidePair(h, "; " + rest);
    FirstAndRest(h, Pair(h) + "; ", rest);
  }

  lemma FirstAndRest(h: Hook, front: string, rest: string)
    requires EndsWithSeparator(front) && StartsPlainly(rest) && HookAt(rest, 0).Some?
    requires HookAt(front + rest, 0) == Some(h.name)
    requires |front| >= |h.name| + 4 && (front + rest)[|h.name| + 2..|front| - 2] == h.command
    ensures |Starts(front + rest, 0)| >= 1 + |Starts(rest, 0)|
    ensures NoStarts(front + rest, 1, |front|) ==> ParseList(front + rest) == [h] + ParseList(rest)
    ensures !NoStarts(front + rest, 1, |front|) ==> |Starts(front + rest, 0)| > 1 + |Starts(rest, 0)|
  {
    var list := front + rest;
    assert rest != "";
    hide HookAt, INSTALL_HOOKS, NoStarts, Shift, Cut, EndsWithSeparator, Starts, StartsPlainly;
    StartsShift(front, rest, 0);
    var starts := Starts(rest, 0);
    StartsUnfold(rest, 0);
    assert starts != [] && starts[0].0 == 0;
    assert |front| + 0 == |front|;
    assert Starts(list, |front|) == Shift(starts, |front|);
    StartsUnfold(list, 0);
    assert StartsHere(list, 0) == [(0, h.name)];
    hide StartsHere;
    StartsGrow(list, 1, |front|);
    if NoStarts(list, 1, |front|) {
      NoStartsBetween(list, 1, |front|);
      SecondStarts(rest);
      ParseFirst(h, front, rest, starts);
    }
  }

  lemma FrontFacts(h: Hook, rest: string)
    ensures var front := Pair(h) + "; ";
      && |front| == |Pair(h)| + 2 == |h.name| + |h.command| + 4
      && EndsWithSeparator(front)
      && front + rest == Pair(h) + ("; " + rest)
      && (front + rest)[|h.name| + 2..|front| - 2] == h.command
  {
  }

  lemma ParseFirst(h: Hook, front: string, rest: string, starts: seq<Start>)
    requires starts != [] && starts[0].0 == 0 && |front| >= |h.name| + 4
    requires forall i :: 0 < i < |starts| ==> starts[i].0 >= 2
    requires (front + rest)[|h.name| + 2..|front| - 2] == h.command
    ensures Cut(front + rest, [(0, h.name)] + Shift(starts, |front|)) == [h] + Cut(rest, starts)
  {
    var moved := Shift(starts, |front|);
    CutShift(front, rest, starts);
    FirstOfShifted(h, front, rest, moved);
    hide FirstPair, Shift;
    assert ([(0, h.name)] + moved)[1..] == moved;
  }

  lemma FirstOfShifted(h: Hook, front: string, rest: string, moved: seq<Start>)
    requires moved != [] && moved[0].0 == |front| && |front| >= |h.name| + 4
    requires (front + rest)[|h.name| + 2..|front| - 2] == h.command
    ensures FirstPair(front + rest, [(0, h.name)] + moved) == [h]
  {
  }

  lemma SecondStarts(list: string)
    ensures forall i :: 0 < i < |Starts(list, 0)| ==> Starts(list, 0)[i].0 >= 2
  {
    hide Starts, HookAt, INSTALL_HOOKS;
    StartsExactly(list, 0);
    var starts := Starts(list, 0);
    forall i | 0 < i < |starts|
      ensures starts[i].0 >= 2
    {
      assert starts[i] in starts && starts[0].0 < starts[i].0;
      assert IsStartOf(list, 0, starts[i].0, starts[i].1);
      HookAtKnown(list, starts[i].0);
    }
  }

  /** Between the head of a pair and the next pair a hook starts exactly when the command is unsafe. */
  lemma InsidePair(h: Hook, rest: string)
    requires h.name in INSTALL_HOOKS
    requires rest == "" || (|rest| >= 2 && rest[0] == ';' && rest[1] == ' ')
    ensures IsSafe(h.command) <==> NoStarts(Pair(h) + rest, 1, |Pair(h)| + (if rest == "" then 0 else 2))
  {
    hide HookAt, INSTALL_HOOKS, Pair, IsStart, Matches, Separator;
    var list, until := Pair(h) + rest, |Pair(h)| + (if rest == "" then 0 else 2);
    if IsSafe(h.command) {
      forall p | 1 <= p < until
        ensures HookAt(list, p).None?
      {
        HookAtKnown(list, p);
        if HookAt(list, p).Some? {
          StartInsidePair(h, rest, p, HookAt(list, p).value);
        }
      }
    } else {
      var q: nat, hook :| hook in INSTALL_HOOKS && Matches(h.command, q, Separator(hook));
      var p := |Header(h.name)| + q + 2;
      UnsafeStart(h, rest, q, hook);
      HookAtMeans(list, p, hook);
      assert HookAt(list, p).Some?;
    }
  }

  // -- the audit row, read back ---------------------------------------------------------------------------

  function ParseReason(raw: string): Option<Reason> {
    if raw == "integrity_changed" then Some(IntegrityChanged)
    else if raw == "deny_rule" then Some(DenyRule)
    else if raw == "too_new" then Some(TooNew)
    else if raw == "install_script" then Some(InstallScript)
    else if raw == "scripts_changed" then Some(ScriptsChanged)
    else None
  }

  function SplitReason(detail: string): (Option<Reason>, string) {
    var at := Find(detail, ": ", 0);
    if at.None? then (None, detail)
    else
      var reason := ParseReason(detail[..at.value]);
      if reason.Some? then (reason, detail[at.value + 2..]) else (None, detail)
  }

  /** `parse_hooks`: the pairs after the first marker, or nothing. */
  function ParseHooks(detail: string): seq<Hook> {
    var at := Find(detail, HOOK_MARKER, 0);
    if at.None? then [] else ParseList(detail[at.value + |HOOK_MARKER|..])
  }

  datatype RecentBlock = RecentBlock(
    package: string,
    version: Option<string>,
    reason: Option<Reason>,
    detail: string,
    scripts: seq<Hook>)

  method FromAudit(row: AuditRow) returns (recent: RecentBlock)
    ensures recent == BlockOf(row)
  {
    var (reason, detail) := SplitReason(row.detail);
    var at := Find(detail, HOOK_MARKER, 0);
    var scripts: seq<Hook> := [];
    if at.Some? {
      scripts := ParseHookList(detail[at.value + |HOOK_MARKER|..]);
    }
    recent := RecentBlock(row.name, row.version, reason, detail, scripts);
  }

  function BlockOf(row: AuditRow): RecentBlock {
    var (reason, detail) := SplitReason(row.detail);
    RecentBlock(row.name, row.version, reason, detail, ParseHooks(detail))
  }

  /** Splitting a stored detail finds its reason, for the five reasons the reader knows. */
  lemma SplitsAtReason(r: Reason, tail: string)
    ensures var (reason, detail) := SplitReason(ReasonPrefix(r) + tail);
      if r.NoIntegrity? || r.InstallScriptQuarantine? then (reason, detail) == (None, ReasonPrefix(r) + tail)
      else (reason, detail) == (Some(r), tail)
  {
    var text := ReasonText(r);
    ReasonTextsDiffer(r, r);
    ReasonParses(r);
    hide ReasonText, ParseReason;
    FirstColon(text, tail);
    assert (text + ": " + tail)[..|text|] == text;
    assert (text + ": " + tail)[|text| + 2..] == tail;
  }

  lemma FirstColon(text: string, tail: string)
    requires ':' !in text
    ensures Find(text + ": " + tail, ": ", 0) == Some(|text|)
  {
    var detail := text + ": " + tail;
    assert Matches(detail, |text|, ": ");
    var at := Find(detail, ": ", 0);
    assert at.Some? && at.value <= |text|;
    assert ": "[0] == ':' && detail[at.value + 0] == ':';
    assert forall i :: 0 <= i < |text| ==> detail[i] == text[i];
  }

  lemma ReasonParses(r: Reason)
    ensures ParseReason(ReasonText(r)) == if r.NoIntegrity? || r.InstallScriptQuarantine? then None else Some(r)
  {
    ReasonTextsDiffer(r, IntegrityChanged);
    ReasonTextsDiffer(r, DenyRule);
    ReasonTextsDiffer(r, TooNew);
    ReasonTextsDiffer(r, InstallScript);
    ReasonTextsDiffer(r, ScriptsChanged);
  }

  /**
   The audit row of an install-script block, read back, names the gate, and yields the hooks and
   commands of the version in order exactly when no command contains `"; "` followed by a hook
   name and `": "`.
   */
  lemma BlockedHooksReadBack(f: Foreign, name: string, version: string, hooks: seq<Hook>, now: int)
    requires hooks != [] && KnownNames(hooks)
    ensures var read := BlockOf(BlockEntry(f, name, BlockRecord(version, InstallScript, HooksPresent(hooks)), now));
      && read.package == name && read.version == Some(version) && read.reason == Some(InstallScript)
      && (read.scripts == hooks <==> AllSafe(hooks))
  {
    var text := JoinHooks(hooks);
    var detail := HOOK_MARKER + text;
    SplitsAtReason(InstallScript, detail);
    MarkerFirst(text);
    hide AllSafe, JoinHooks, SplitReason, ParseList, HOOK_MARKER, INSTALL_HOOKS;
    assert ParseHooks(detail) == ParseList(text);
    ParsingUndoesPrinting(hooks);
  }

  lemma MarkerFirst(text: string)
    ensures Find(HOOK_MARKER + text, HOOK_MARKER, 0) == Some(0)
    ensures (HOOK_MARKER + text)[|HOOK_MARKER|..] == text
  {
    hide HOOK_MARKER;
  }

  /** The hooks the gate reports are hooks this round trip covers. */
  lemma GateHooksCovered(f: Foreign, meta: Json.Value)
    ensures KnownNames(InstallHooks(f, meta))
  {
    var scripts := Json.Get(meta, "scripts");
    HookNamesAre();
    hide INSTALL_HOOKS;
    if scripts.Some? && scripts.value.Object? {
      HooksAmongNames(f, scripts.value.fields, INSTALL_HOOKS);
    }
  }
}
