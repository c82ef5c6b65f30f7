/**
 The policy gates for one version: ledger verdict, deny rule, install-script quarantine, allow
 rule, first-party scope, missing hash, release age, install hooks.
 */
module Policy {
  import opened Basics
  import opened Json
  import Semver

  /** Calls into code this project does not model: hashing, parsing and message wording. */
  datatype Foreign = Foreign(
    sha256: string -> string,
    canonicalJson: map<string, string> -> string,
    jsonText: Value -> string,
    parseTimestamp: string -> Option<int>,
    parseSemver: string -> Option<Semver.Version>,
    wording: Evidence -> string)

  /** Nanoseconds; every instant is an offset from the Unix epoch. */
  const SECOND: int := 1_000_000_000
  const SECONDS_PER_DAY: int := 86_400
  const DAY: int := SECONDS_PER_DAY * SECOND

  const INSTALL_HOOKS: seq<string> := ["preinstall", "install", "postinstall"]

  datatype Config = Config(
    minAgeDays: nat,
    bypassScopes: seq<string>,
    allowDistTagDowngrade: bool,
    installScriptQuarantineDays: nat)

  datatype Reason =
    | IntegrityChanged
    | DenyRule
    | TooNew
    | InstallScript
    | ScriptsChanged
    | NoIntegrity
    | InstallScriptQuarantine

  function ReasonText(r: Reason): string {
    match r
    case IntegrityChanged => "integrity_changed"
    case DenyRule => "deny_rule"
    case TooNew => "too_new"
    case InstallScript => "install_script"
    case ScriptsChanged => "scripts_changed"
    case NoIntegrity => "no_integrity"
    case InstallScriptQuarantine => "install_script_quarantine"
  }

  predicate IsCritical(r: Reason) {
    r.IntegrityChanged? || r.ScriptsChanged?
  }

  datatype Verdict = Allow | Deny

  datatype Rule = Rule(
    name: string,
    version: string,
    verdict: Verdict,
    integrity: Option<string>,
    scriptsSha256: Option<string>,
    reason: Option<string>,
    actor: Option<string>)

  /** What comparing an observed identity with the ledger found. */
  datatype Check = Unseen | Match | Changed(recorded: Option<string>)

  datatype Hook = Hook(name: string, command: string)

  /** What a block record's operator-facing detail is made from. */
  datatype Evidence =
    | LedgerMismatch(recorded: Option<string>, identity: Option<string>)
    | DeniedBy(reason: Option<string>)
    | InsideQuarantine(ageSeconds: Option<int>, hooks: seq<Hook>)
    | RulePinMismatch(pinned: Option<string>, integrity: Option<string>)
    | ScriptsMismatch(approved: string, current: string, hooks: seq<Hook>)
    | NothingToPin
    | Age(seconds: int)
    | UnreadablePublishTime(raw: Option<string>)
    | HooksPresent(hooks: seq<Hook>)
    | FlaggedByUpstream

  datatype Decision = Serve | Block(reason: Reason, evidence: Evidence)

  /** `num_seconds` of a signed duration: whole seconds, truncated toward zero. */
  function WholeSeconds(nanos: int): int {
    if nanos >= 0 then nanos / SECOND else -((-nanos) / SECOND)
  }

  lemma WholeSecondsThreshold(nanos: int, seconds: int)
    requires seconds > 0
    ensures WholeSeconds(nanos) >= seconds <==> nanos >= seconds * SECOND
  {
  }

  function DistField(meta: Value, key: string): Option<string> {
    var dist := Get(meta, "dist");
    if dist.None? then None else AsStr(Get(dist.value, key))
  }

  function VersionIntegrity(meta: Value): Option<string> {
    DistField(meta, "integrity")
  }

  function VersionShasum(meta: Value): Option<string> {
    var shasum := DistField(meta, "shasum");
    if shasum.Some? && shasum.value != "" then shasum else None
  }

  /** What the ledger records: the integrity, else the prefixed shasum, else nothing. */
  function VersionIdentity(meta: Value): Option<string> {
    var integrity := VersionIntegrity(meta);
    if integrity.Some? then integrity
    else
      var shasum := VersionShasum(meta);
      if shasum.Some? then Some("shasum-sha1:" + shasum.value) else None
  }

  function HookCommand(f: Foreign, scripts: map<string, Value>, hook: string): Option<string> {
    if hook !in scripts || scripts[hook].Null? then None
    else if scripts[hook].String? then Some(scripts[hook].text)
    else Some(f.jsonText(scripts[hook]))
  }

  function HooksAmong(f: Foreign, scripts: map<string, Value>, names: seq<string>): (r: seq<Hook>) {
    if names == [] then []
    else
      var command := HookCommand(f, scripts, names[0]);
      (if command.Some? then [Hook(names[0], command.value)] else []) + HooksAmong(f, scripts, names[1..])
  }

  function InstallHooks(f: Foreign, meta: Value): seq<Hook> {
    var scripts := Get(meta, "scripts");
    if scripts.None? || !scripts.value.Object? then []
    else HooksAmong(f, scripts.value.fields, INSTALL_HOOKS)
  }

  /** The loop of `install_hooks`, in `preinstall`, `install`, `postinstall` order. */
  method CollectHooks(f: Foreign, scripts: map<string, Value>, names: seq<string>) returns (hooks: seq<Hook>)
    ensures hooks == HooksAmong(f, scripts, names)
  {
    hide HookCommand;
    hooks := [];
    assert names[0..] == names;
    for i := 0 to |names|
      invariant hooks + HooksAmong(f, scripts, names[i..]) == HooksAmong(f, scripts, names)
    {
      assert names[i..][1..] == names[i + 1..];
      var command := HookCommand(f, scripts, names[i]);
      if command.Some? {
        hooks := hooks + [Hook(names[i], command.value)];
      }
    }
  }

  predicate FlagsInstallScript(meta: Value) {
    Get(meta, "hasInstallScript") == Some(Bool(true))
  }

  predicate RunsInstallScript(f: Foreign, meta: Value) {
    InstallHooks(f, meta) != [] || FlagsInstallScript(meta)
  }

  /** Hook pairs collected into a sorted map; a later duplicate of a hook wins. */
  function HookMap(hooks: seq<Hook>): map<string, string> {
    if hooks == [] then map[]
    else HookMap(hooks[..|hooks| - 1])[hooks[|hooks| - 1].name := hooks[|hooks| - 1].command]
  }

  /** sha256 over the canonical JSON of a hook map: what an approval pins its commands to. */
  function ScriptSetSha256(f: Foreign, hooks: map<string, string>): string {
    f.sha256(f.canonicalJson(hooks))
  }

  function ScriptsSha256(f: Foreign, meta: Value): string {
    ScriptSetSha256(f, HookMap(InstallHooks(f, meta)))
  }

  function IndexOf(s: string, c: char): (i: nat)
    ensures i <= |s|
    ensures forall k :: 0 <= k < i ==> s[k] != c
    ensures i < |s| ==> s[i] == c
  {
    if s == "" || s[0] == c then 0 else 1 + IndexOf(s[1..], c)
  }

  /** What stands between the at sign and the slash, if both parts of the name are non-empty. */
  function PackageScope(name: string): Option<string> {
    if name == "" || name[0] != '@' then None
    else
      var slash := IndexOf(name, '/');
      if slash < 2 || slash + 1 >= |name| then None else Some(name[1..slash])
  }

  function TrimAt(s: string): string {
    if s != "" && s[0] == '@' then TrimAt(s[1..]) else s
  }

  predicate IsBypassedScope(name: string, cfg: Config) {
    var scope := PackageScope(name);
    scope.Some? && exists i :: 0 <= i < |cfg.bypassScopes| && TrimAt(cfg.bypassScopes[i]) == scope.value
  }

  function PublishTime(f: Foreign, published: Option<string>): Option<int> {
    if published.Some? then f.parseTimestamp(published.value) else None
  }

  function AgeSeconds(f: Foreign, published: Option<string>, now: int): Option<int> {
    var at := PublishTime(f, published);
    if at.Some? then Some(WholeSeconds(now - at.value)) else None
  }

  /** Whether the install-script quarantine floor withholds this version. */
  predicate UnderQuarantine(f: Foreign, cfg: Config, name: string, meta: Value, published: Option<string>, now: int) {
    && cfg.installScriptQuarantineDays > 0
    && RunsInstallScript(f, meta)
    && !IsBypassedScope(name, cfg)
    && var age := AgeSeconds(f, published, now);
       !(age.Some? && age.value >= cfg.installScriptQuarantineDays * SECONDS_PER_DAY)
  }

  /** The gates an allow rule answers for: the pinned hash and the approved commands. */
  function AllowGate(f: Foreign, rule: Rule, meta: Value): Decision {
    if rule.integrity != VersionIntegrity(meta) then
      Block(IntegrityChanged, RulePinMismatch(rule.integrity, VersionIntegrity(meta)))
    else if rule.scriptsSha256.Some? && rule.scriptsSha256.value != ScriptsSha256(f, meta) then
      Block(ScriptsChanged, ScriptsMismatch(rule.scriptsSha256.value, ScriptsSha256(f, meta), InstallHooks(f, meta)))
    else
      Serve
  }

  /** The gates that apply without any rule. */
  function AutomaticGates(f: Foreign, cfg: Config, name: string, meta: Value, published: Option<string>, now: int)
    : Decision
  {
    if IsBypassedScope(name, cfg) then Serve
    else if VersionIdentity(meta).None? then Block(NoIntegrity, NothingToPin)
    else
      var age := AgeSeconds(f, published, now);
      if cfg.minAgeDays > 0 && age.None? then Block(TooNew, UnreadablePublishTime(published))
      else if cfg.minAgeDays > 0 && age.value < cfg.minAgeDays * SECONDS_PER_DAY then Block(TooNew, Age(age.value))
      else if InstallHooks(f, meta) != [] then Block(InstallScript, HooksPresent(InstallHooks(f, meta)))
      else if FlagsInstallScript(meta) then Block(InstallScript, FlaggedByUpstream)
      else Serve
  }

  /** The gates below the ledger, from the looked-up rule. */
  function RuleGates(f: Foreign, cfg: Config, name: string, meta: Value, published: Option<string>,
                     rule: Option<Rule>, now: int): Decision
  {
    if rule.Some? && rule.value.verdict.Deny? then Block(DenyRule, DeniedBy(rule.value.reason))
    else if UnderQuarantine(f, cfg, name, meta, published, now) then
      Block(InstallScriptQuarantine, InsideQuarantine(AgeSeconds(f, published, now), InstallHooks(f, meta)))
    else if rule.Some? then AllowGate(f, rule.value, meta)
    else AutomaticGates(f, cfg, name, meta, published, now)
  }

  /** `evaluate_version`: a changed ledger identity blocks before any rule is looked at. */
  function Decide(f: Foreign, cfg: Config, name: string, meta: Value, published: Option<string>,
                  check: Check, rule: Option<Rule>, now: int): Decision
  {
    if check.Changed? then Block(IntegrityChanged, LedgerMismatch(check.recorded, VersionIdentity(meta)))
    else RuleGates(f, cfg, name, meta, published, rule, now)
  }

  /** The listed hooks are exactly the asked names that carry a command, with that command, each once. */
  lemma {:induction false} HooksAmongNames(f: Foreign, scripts: map<string, Value>, names: seq<string>)
    requires Distinct(names)
    ensures forall h :: h in HooksAmong(f, scripts, names) <==>
              h.name in names && HookCommand(f, scripts, h.name) == Some(h.command)
    ensures Distinct(HookNames(HooksAmong(f, scripts, names)))
  {
    if names != [] {
      hide HookCommand;
      HooksAmongNames(f, scripts, names[1..]);
      assert names[0] !in names[1..];
    }
  }

  function HookNames(hooks: seq<Hook>): (r: seq<string>)
    ensures |r| == |hooks|
    ensures forall i :: 0 <= i < |hooks| ==> r[i] == hooks[i].name
  {
    seq(|hooks|, i requires 0 <= i < |hooks| => hooks[i].name)
  }

  /**
   Exactly which versions are served: the ledger reports no change, no deny rule stands, the
   quarantine floor does not apply or has cleared, and then either an allow rule still matches
   the hash and the commands, or (with no rule) the scope is first-party or the version has a
   hash, is old enough and runs nothing at install time.
   */
  lemma ServedExactlyWhen(f: Foreign, cfg: Config, name: string, meta: Value, published: Option<string>,
                          check: Check, rule: Option<Rule>, now: int)
    ensures Decide(f, cfg, name, meta, published, check, rule, now) == Serve <==>
      && !check.Changed?
      && (rule.Some? ==> rule.value.verdict == Allow && rule.value.integrity == VersionIntegrity(meta)
                         && (rule.value.scriptsSha256.Some? ==>
                               rule.value.scriptsSha256.value == ScriptsSha256(f, meta)))
      && (RunsInstallScript(f, meta) && cfg.installScriptQuarantineDays > 0 && !IsBypassedScope(name, cfg) ==>
            OldEnough(f, published, cfg.installScriptQuarantineDays, now))
      && (rule.None? && !IsBypassedScope(name, cfg) ==>
            && VersionIdentity(meta).Some?
            && !RunsInstallScript(f, meta)
            && (cfg.minAgeDays > 0 ==> OldEnough(f, published, cfg.minAgeDays, now)))
  {
    AgeThreshold(f, published, cfg.installScriptQuarantineDays, now);
    AgeThreshold(f, published, cfg.minAgeDays, now);
  }

  /** The publish time is readable and at least this many days lie between it and now. */
  predicate OldEnough(f: Foreign, published: Option<string>, days: nat, now: int) {
    var at := PublishTime(f, published);
    at.Some? && at.value + days * DAY <= now
  }

  /** Comparing truncated seconds is exact to the nanosecond. */
  lemma AgeThreshold(f: Foreign, published: Option<string>, days: nat, now: int)
    ensures var age := AgeSeconds(f, published, now);
      days > 0 ==> ((age.Some? && age.value >= days * SECONDS_PER_DAY) <==> OldEnough(f, published, days, now))
  {
    var at := PublishTime(f, published);
    if at.Some? && days > 0 {
      WholeSecondsThreshold(now - at.value, days * SECONDS_PER_DAY);
    }
  }

  // -- what is read out of the JSON -----------------------------------------------------------------

  /** The object has this member. */
  predicate Has(whole: Value, key: string, member: Value) {
    whole.Object? && key in whole.fields && whole.fields[key] == member
  }

  /** The version's `dist` carries this text under this key. */
  ghost predicate Publishes(meta: Value, key: string, text: string) {
    exists dist :: Has(meta, "dist", dist) && Has(dist, key, String(text))
  }

  lemma DistFieldReads(meta: Value, key: string)
    ensures forall text :: DistField(meta, key) == Some(text) <==> Publishes(meta, key, text)
  {
    forall text
      ensures DistField(meta, key) == Some(text) <==> Publishes(meta, key, text)
    {
      if DistField(meta, key) == Some(text) {
        assert Has(meta, "dist", meta.fields["dist"]) && Has(meta.fields["dist"], key, String(text));
      }
    }
  }

  /**
   The identity the ledger records and compares. It is the published integrity if there is one; else
   the published shasum, unless empty, marked as such; and nothing exactly when neither exists.
   */
  lemma IdentityReads(meta: Value)
    ensures forall s :: VersionIntegrity(meta) == Some(s) <==> Publishes(meta, "integrity", s)
    ensures forall s :: Publishes(meta, "integrity", s) ==> VersionIdentity(meta) == Some(s)
    ensures forall h :: (forall s :: !Publishes(meta, "integrity", s)) && Publishes(meta, "shasum", h) && h != "" ==>
              VersionIdentity(meta) == Some("shasum-sha1:" + h)
    ensures VersionIdentity(meta).None? <==>
              (forall s :: !Publishes(meta, "integrity", s)) && (forall h :: Publishes(meta, "shasum", h) ==> h == "")
  {
    DistFieldReads(meta, "integrity");
    DistFieldReads(meta, "shasum");
    hide DistField, Publishes;
    assert VersionIntegrity(meta).Some? ==> Publishes(meta, "integrity", VersionIntegrity(meta).value);
    assert DistField(meta, "shasum").Some? ==> Publishes(meta, "shasum", DistField(meta, "shasum").value);
  }

  /** Two published integrities are one identity only if they are the same text. */
  lemma IntegritiesDiffer(a: Value, b: Value, s: string, t: string)
    requires Publishes(a, "integrity", s) && Publishes(b, "integrity", t)
    ensures VersionIdentity(a) == VersionIdentity(b) <==> s == t
  {
    IdentityReads(a);
    IdentityReads(b);
    hide VersionIdentity, Publishes;
  }

  /** The version declares this command for this install hook; a command that is no text counts as its JSON. */
  ghost predicate Declares(f: Foreign, meta: Value, hook: string, command: string) {
    && hook in {"preinstall", "install", "postinstall"}
    && exists scripts, value ::
         && Has(meta, "scripts", scripts) && Has(scripts, hook, value) && !value.Null?
         && command == if value.String? then value.text else f.jsonText(value)
  }

  lemma HookNamesAre()
    ensures |INSTALL_HOOKS| == 3 && Distinct(INSTALL_HOOKS)
    ensures INSTALL_HOOKS[0] == "preinstall" && INSTALL_HOOKS[1] == "install" && INSTALL_HOOKS[2] == "postinstall"
    ensures forall hook :: hook in INSTALL_HOOKS <==> hook in {"preinstall", "install", "postinstall"}
  {
    assert |INSTALL_HOOKS[1]| != |INSTALL_HOOKS[2]|;
    assert |INSTALL_HOOKS[0]| != |INSTALL_HOOKS[1]|;
    assert INSTALL_HOOKS[0][1] != INSTALL_HOOKS[2][1];
  }

  /** The install hooks are exactly what the `scripts` object declares, each hook once. */
  lemma HooksRead(f: Foreign, meta: Value)
    ensures forall hook, command :: Hook(hook, command) in InstallHooks(f, meta) <==> Declares(f, meta, hook, command)
    ensures Distinct(HookNames(InstallHooks(f, meta)))
  {
    HookNamesAre();
    hide INSTALL_HOOKS, HooksAmong;
    var scripts := Get(meta, "scripts");
    if scripts.Some? && scripts.value.Object? {
      HooksAmongNames(f, scripts.value.fields, INSTALL_HOOKS);
      assert Has(meta, "scripts", scripts.value);
      forall hook, command
        ensures Hook(hook, command) in InstallHooks(f, meta) <==> Declares(f, meta, hook, command)
      {
        if hook in scripts.value.fields {
          assert Has(scripts.value, hook, scripts.value.fields[hook]);
        }
        assert Hook(hook, command).name == hook;
      }
    }
  }

  /** A map from hooks to commands is exactly what the version declares. */
  ghost predicate DeclaresExactly(f: Foreign, meta: Value, hooks: map<string, string>) {
    forall hook, command :: hook in hooks && hooks[hook] == command <==> Declares(f, meta, hook, command)
  }

  lemma {:induction false} HookMapHolds(hooks: seq<Hook>)
    requires Distinct(HookNames(hooks))
    ensures forall hook, command ::
              hook in HookMap(hooks) && HookMap(hooks)[hook] == command <==> Hook(hook, command) in hooks
  {
    if hooks != [] {
      var n := |hooks| - 1;
      var front, last := hooks[..n], hooks[n];
      assert forall i :: 0 <= i < n ==> HookNames(front)[i] == HookNames(hooks)[i];
      HookMapHolds(front);
      assert hooks == front + [last];
      assert forall i :: 0 <= i < n ==> HookNames(hooks)[i] != HookNames(hooks)[n];
      forall hook, command
        ensures hook in HookMap(hooks) && HookMap(hooks)[hook] == command <==> Hook(hook, command) in hooks
      {
        assert Hook(hook, command) in hooks <==> Hook(hook, command) in front || Hook(hook, command) == last;
        assert Hook(hook, command) in front ==> hook != last.name;
      }
    }
  }

  lemma HookMapReads(f: Foreign, meta: Value)
    ensures forall hooks :: DeclaresExactly(f, meta, hooks) <==> hooks == HookMap(InstallHooks(f, meta))
  {
    HooksRead(f, meta);
    HookMapHolds(InstallHooks(f, meta));
    hide Declares, InstallHooks, HookMap;
    var declared := HookMap(InstallHooks(f, meta));
    forall hooks
      ensures DeclaresExactly(f, meta, hooks) <==> hooks == declared
    {
      if DeclaresExactly(f, meta, hooks) {
        forall hook
          ensures hook in hooks <==> hook in declared
          ensures hook in hooks && hook in declared ==> hooks[hook] == declared[hook]
        {
          assert hook in hooks ==> Declares(f, meta, hook, hooks[hook]);
          assert hook in declared ==> Declares(f, meta, hook, declared[hook]);
        }
      }
    }
  }

  /** Hashing and rendering tell different texts and different maps apart. */
  ghost predicate TellsApart(f: Foreign) {
    && (forall a, b :: f.sha256(a) == f.sha256(b) ==> a == b)
    && (forall a, b :: f.canonicalJson(a) == f.canonicalJson(b) ==> a == b)
  }

  /** The digest of a hook map is that of a version exactly when the map is what the version declares. */
  lemma ScriptsDigestReads(f: Foreign, hooks: map<string, string>, meta: Value)
    requires TellsApart(f)
    ensures ScriptSetSha256(f, hooks) == ScriptsSha256(f, meta) <==> DeclaresExactly(f, meta, hooks)
  {
    HookMapReads(f, meta);
    hide DeclaresExactly, HookMap, InstallHooks;
  }

  /** A version runs something at install time when it declares an install hook or upstream says so. */
  lemma RunsInstallScriptReads(f: Foreign, meta: Value)
    ensures RunsInstallScript(f, meta) <==>
              (exists hook, command :: Declares(f, meta, hook, command)) || Has(meta, "hasInstallScript", Bool(true))
  {
    HooksRead(f, meta);
    hide Declares, InstallHooks;
    var hooks := InstallHooks(f, meta);
    if hooks != [] {
      assert Hook(hooks[0].name, hooks[0].command) in hooks;
    }
  }

  // -- first-party scopes -----------------------------------------------------------------------------

  /** The text behind its first n characters, which are all at signs and all there are in front. */
  ghost predicate StripsTo(s: string, n: nat, rest: string) {
    && n <= |s| && rest == s[n..] && (forall i :: 0 <= i < n ==> s[i] == '@') && (rest != "" ==> rest[0] != '@')
  }

  lemma {:induction false} TrimAtStrips(s: string)
    ensures exists n: nat :: StripsTo(s, n, TrimAt(s))
  {
    if s != "" && s[0] == '@' {
      TrimAtStrips(s[1..]);
      var n: nat :| StripsTo(s[1..], n, TrimAt(s[1..]));
      StripsOneMore(s, n, TrimAt(s[1..]));
      assert TrimAt(s) == TrimAt(s[1..]);
      assert StripsTo(s, n + 1, TrimAt(s));
    } else {
      assert s[0..] == s && TrimAt(s) == s;
      assert StripsTo(s, 0, s);
    }
  }

  lemma StripsOneMore(s: string, n: nat, rest: string)
    requires s != "" && s[0] == '@' && StripsTo(s[1..], n, rest)
    ensures StripsTo(s, n + 1, rest)
  {
    assert s[1..][n..] == s[n + 1..];
    assert forall i :: 0 < i < n + 1 ==> s[i] == s[1..][i - 1];
  }

  /** The text is the scope, possibly behind at signs. */
  ghost predicate NamesScope(text: string, scope: string) {
    exists n: nat :: StripsTo(text, n, scope)
  }

  lemma TrimAtNames(text: string, scope: string)
    ensures TrimAt(text) == scope <==> NamesScope(text, scope)
  {
    TrimAtStrips(text);
    if NamesScope(text, scope) {
      var n: nat :| StripsTo(text, n, TrimAt(text));
      var m: nat :| StripsTo(text, m, scope);
      hide TrimAt;
      assert m < |text| ==> text[m] == scope[0];
      assert n < |text| ==> text[n] == TrimAt(text)[0];
      assert m == n;
    }
  }

  /** The name is `@scope/package` with both parts non-empty; the scope ends at the first slash. */
  ghost predicate InScope(name: string, scope: string) {
    && scope != "" && '/' !in scope
    && exists package :: package != "" && name == "@" + scope + "/" + package
  }

  lemma PackageScopeReads(name: string, scope: string)
    ensures PackageScope(name) == Some(scope) <==> InScope(name, scope)
  {
    if name != "" && name[0] == '@' {
      var slash := IndexOf(name, '/');
      if PackageScope(name) == Some(scope) {
        assert name == "@" + scope + "/" + name[slash + 1..];
        assert name[slash + 1..] != "";
      }
      if InScope(name, scope) {
        var package :| package != "" && name == "@" + scope + "/" + package;
        assert name[1 + |scope|] == '/';
        assert forall i :: 0 < i < 1 + |scope| ==> name[i] == scope[i - 1];
        assert slash == 1 + |scope|;
        assert name[1..slash] == scope;
      }
    }
  }

  /** A package is first-party exactly when its scope is one of the configured ones, at signs in front aside. */
  lemma BypassedScopeReads(name: string, cfg: Config)
    ensures IsBypassedScope(name, cfg) <==>
              exists scope, text :: InScope(name, scope) && text in cfg.bypassScopes && NamesScope(text, scope)
  {
    hide PackageScope, TrimAt, InScope, NamesScope;
    if IsBypassedScope(name, cfg) {
      var scope := PackageScope(name).value;
      var i :| 0 <= i < |cfg.bypassScopes| && TrimAt(cfg.bypassScopes[i]) == scope;
      PackageScopeReads(name, scope);
      TrimAtNames(cfg.bypassScopes[i], scope);
    }
    if exists scope, text :: InScope(name, scope) && text in cfg.bypassScopes && NamesScope(text, scope) {
      var scope, text :| InScope(name, scope) && text in cfg.bypassScopes && NamesScope(text, scope);
      PackageScopeReads(name, scope);
      TrimAtNames(text, scope);
    }
  }

  // -- why a version is blocked -----------------------------------------------------------------------

  /** What keeps a version from being decided by an automatic gate. */
  ghost predicate Unruled(f: Foreign, cfg: Config, name: string, meta: Value, published: Option<string>, check: Check,
                          rule: Option<Rule>, now: int) {
    && !check.Changed? && rule.None? && !UnderQuarantine(f, cfg, name, meta, published, now)
    && !IsBypassedScope(name, cfg)
  }

  /** A standing allow rule whose turn it is. */
  ghost predicate Allowing(f: Foreign, cfg: Config, name: string, meta: Value, published: Option<string>, check: Check,
                           rule: Option<Rule>, now: int) {
    && !check.Changed? && rule.Some? && rule.value.verdict.Allow?
    && !UnderQuarantine(f, cfg, name, meta, published, now)
  }

  /** Exactly when a version is blocked for which reason: the first gate that objects names it. */
  lemma BlockedExactlyWhy(f: Foreign, cfg: Config, name: string, meta: Value, published: Option<string>, check: Check,
                          rule: Option<Rule>, now: int)
    ensures var decision := Decide(f, cfg, name, meta, published, check, rule, now);
      var unruled := Unruled(f, cfg, name, meta, published, check, rule, now);
      var allowing := Allowing(f, cfg, name, meta, published, check, rule, now);
      var oldEnough := cfg.minAgeDays > 0 ==> OldEnough(f, published, cfg.minAgeDays, now);
      && (BlockedFor(decision, IntegrityChanged) <==>
            check.Changed? || (allowing && rule.value.integrity != VersionIntegrity(meta)))
      && (BlockedFor(decision, DenyRule) <==> !check.Changed? && rule.Some? && rule.value.verdict.Deny?)
      && (BlockedFor(decision, InstallScriptQuarantine) <==>
            && !check.Changed? && !(rule.Some? && rule.value.verdict.Deny?)
            && UnderQuarantine(f, cfg, name, meta, published, now))
      && (BlockedFor(decision, ScriptsChanged) <==>
            && allowing && rule.value.integrity == VersionIntegrity(meta)
            && rule.value.scriptsSha256.Some? && rule.value.scriptsSha256.value != ScriptsSha256(f, meta))
      && (BlockedFor(decision, NoIntegrity) <==> unruled && VersionIdentity(meta).None?)
      && (BlockedFor(decision, TooNew) <==> unruled && VersionIdentity(meta).Some? && !oldEnough)
      && (BlockedFor(decision, InstallScript) <==>
            unruled && VersionIdentity(meta).Some? && oldEnough && RunsInstallScript(f, meta))
  {
    AgeThreshold(f, published, cfg.minAgeDays, now);
    hide VersionIdentity, VersionIntegrity, InstallHooks, ScriptsSha256, IsBypassedScope, UnderQuarantine;
  }

  /**
   The evidence of a block tells the truth: what it says was recorded, pinned, approved or asked for is
   what the ledger, the rule and the document say, what it says does not agree does not, and the hooks
   it lists are those of the version.
   */
  lemma EvidenceIsTruthful(f: Foreign, cfg: Config, name: string, meta: Value, published: Option<string>, check: Check,
                           rule: Option<Rule>, now: int)
    requires Decide(f, cfg, name, meta, published, check, rule, now).Block?
    ensures var e := Decide(f, cfg, name, meta, published, check, rule, now).evidence;
      && (e.LedgerMismatch? ==> check == Changed(e.recorded) && e.identity == VersionIdentity(meta))
      && (e.DeniedBy? ==> rule.Some? && e.reason == rule.value.reason)
      && (e.RulePinMismatch? ==>
            && rule.Some? && e.pinned == rule.value.integrity && e.integrity == VersionIntegrity(meta)
            && e.pinned != e.integrity)
      && (e.ScriptsMismatch? ==>
            && rule.Some? && Some(e.approved) == rule.value.scriptsSha256 && e.current == ScriptsSha256(f, meta)
            && e.approved != e.current && e.hooks == InstallHooks(f, meta))
      && (e.NothingToPin? ==> VersionIdentity(meta) == None)
      && (e.UnreadablePublishTime? ==> e.raw == published && PublishTime(f, published) == None)
      && (e.Age? ==> IsAge(f, published, now, e.seconds) && e.seconds < cfg.minAgeDays * SECONDS_PER_DAY)
      && (e.InsideQuarantine? ==>
            && (e.ageSeconds == None <==> PublishTime(f, published) == None)
            && (e.ageSeconds.Some? ==> IsAge(f, published, now, e.ageSeconds.value))
            && e.hooks == InstallHooks(f, meta))
      && (e.HooksPresent? ==> e.hooks != [] && e.hooks == InstallHooks(f, meta))
      && (e.FlaggedByUpstream? ==> FlagsInstallScript(meta) && InstallHooks(f, meta) == [])
  {
    hide VersionIdentity, VersionIntegrity, InstallHooks, ScriptsSha256, IsBypassedScope, UnderQuarantine,
      FlagsInstallScript, PublishTime;
  }

  /** The whole seconds between a readable publish time and now, a time ahead counting backwards. */
  predicate IsAge(f: Foreign, published: Option<string>, now: int, seconds: int) {
    var at := PublishTime(f, published);
    && at.Some?
    && (at.value <= now ==> at.value + seconds * SECOND <= now < at.value + (seconds + 1) * SECOND)
    && (at.value > now ==> at.value + (seconds - 1) * SECOND < now <= at.value + seconds * SECOND)
  }

  predicate BlockedFor(decision: Decision, reason: Reason) {
    decision.Block? && decision.reason == reason
  }

  /** The floor in plain terms: it is on, the version runs something, is not first-party and is not old enough. */
  lemma UnderQuarantineReads(f: Foreign, cfg: Config, name: string, meta: Value, published: Option<string>, now: int)
    ensures UnderQuarantine(f, cfg, name, meta, published, now) <==>
              && cfg.installScriptQuarantineDays > 0 && RunsInstallScript(f, meta) && !IsBypassedScope(name, cfg)
              && !OldEnough(f, published, cfg.installScriptQuarantineDays, now)
  {
    AgeThreshold(f, published, cfg.installScriptQuarantineDays, now);
    hide RunsInstallScript, IsBypassedScope;
  }
}
