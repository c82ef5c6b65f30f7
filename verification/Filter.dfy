/**
 Rebuilding a packument around the withheld versions, and the answers given from the result:
 dist-tags, the withheld-tag summary and the single-version endpoint.
 */
module Filter {
  import opened Basics
  import opened Json
  import opened Order
  import opened Policy
  import Semver

  datatype BlockRecord = BlockRecord(version: string, reason: Reason, evidence: Evidence)

  datatype Outcome = Outcome(packument: Value, blocked: seq<BlockRecord>)

  datatype PolicyError = NotAnObject | MissingName | MissingVersions

  /** The parts of a packument the engine reads. */
  datatype Document = Document(
    root: map<string, Value>,
    name: string,
    versions: map<string, Value>,
    time: Option<map<string, Value>>)

  function Parse(packument: Value): Result<Document, PolicyError> {
    if !packument.Object? then Err(NotAnObject)
    else
      var name := AsStr(Get(packument, "name"));
      var versions := GetObject(packument.fields, "versions");
      if name.None? then Err(MissingName)
      else if versions.None? then Err(MissingVersions)
      else Ok(Document(packument.fields, name.value, versions.value, GetObject(packument.fields, "time")))
  }

  function Published(d: Document, version: string): Option<string> {
    if d.time.Some? && version in d.time.value then AsStr(Some(d.time.value[version])) else None
  }

  // -- version order ------------------------------------------------------------------------

  /** `compare_versions(left, right)` is not `Greater`: unparseable versions rank lowest. */
  predicate CompareLeq(f: Foreign, left: string, right: string) {
    match (f.parseSemver(left), f.parseSemver(right))
    case (Some(l), Some(r)) => Semver.VersionLeq(l, r)
    case (Some(_), None) => false
    case (None, Some(_)) => true
    case (None, None) => StringLeq(left, right)
  }

  /** The order dist-tags are repointed by is a total preorder on all strings. */
  lemma CompareTotalPreorder(f: Foreign, a: string, b: string, c: string)
    ensures CompareLeq(f, a, a)
    ensures CompareLeq(f, a, b) || CompareLeq(f, b, a)
    ensures CompareLeq(f, a, b) && CompareLeq(f, b, c) ==> CompareLeq(f, a, c)
  {
    LeqReflexive(Codes(a));
    LeqTotal(Codes(a), Codes(b));
    if StringLeq(a, b) && StringLeq(b, c) {
      LeqTransitive(Codes(a), Codes(b), Codes(c));
    }
    var x, y, z := f.parseSemver(a), f.parseSemver(b), f.parseSemver(c);
    if x.Some? && y.Some? {
      Semver.VersionTotalOrder(x.value, y.value, if z.Some? then z.value else x.value);
    } else if x.Some? {
      Semver.VersionTotalOrder(x.value, x.value, x.value);
    }
  }

  /** Stable versions are exactly the parsed ones that are not below the release of their own core. */
  lemma StableReads(f: Foreign, version: string)
    ensures IsStable(f, version) <==>
              var parsed := f.parseSemver(version);
              parsed.Some? && !Semver.Below(parsed.value, parsed.value.(pre := []))
  {
    var parsed := f.parseSemver(version);
    if parsed.Some? && parsed.value.pre != [] {
      Semver.PreReleaseIsBelow(parsed.value, parsed.value.(pre := []));
    } else if parsed.Some? {
      assert parsed.value.(pre := []) == parsed.value;
    }
  }

  predicate CompareBelow(f: Foreign, left: string, right: string) {
    CompareLeq(f, left, right) && !CompareLeq(f, right, left)
  }

  /** Unparseable strings are below every version, and among themselves compare as text. */
  lemma UnparseableIsBelow(f: Foreign, left: string, right: string)
    requires f.parseSemver(left).None?
    ensures f.parseSemver(right).Some? ==> CompareBelow(f, left, right)
    ensures f.parseSemver(right).None? && Semver.TextBelow(left, right) ==> CompareBelow(f, left, right)
  {
    if f.parseSemver(right).None? && Semver.TextBelow(left, right) {
      var k :| Semver.TextBelowAt(left, right, k);
      StringLeqByFirstDifference(left, right, k);
      StringLeqByFirstDifference(right, left, k);
    }
  }

  /** Parsed strings compare as versions. */
  lemma ParsedCompare(f: Foreign, left: string, right: string)
    requires f.parseSemver(left).Some? && f.parseSemver(right).Some?
    ensures CompareBelow(f, left, right) <==> Semver.Below(f.parseSemver(left).value, f.parseSemver(right).value)
  {
  }

  /** The core of one version is not above that of another. */
  predicate CoreAtMost(a: Semver.Version, b: Semver.Version) {
    && a.major <= b.major
    && (a.major == b.major ==> a.minor <= b.minor)
    && (a.major == b.major && a.minor == b.minor ==> a.patch <= b.patch)
  }

  /** Comparing cores is what comparing versions does first. */
  lemma CoreAtMostReads(a: Semver.Version, b: Semver.Version)
    ensures CoreAtMost(a, b) <==> Semver.SameCore(a, b) || Semver.Below(a, b)
  {
    if !Semver.SameCore(a, b) {
      Semver.CoreDecides(a, b);
      Semver.CoreDecides(b, a);
    }
  }

  /** What ranks below or level has no larger core, and is unparseable if the other is. */
  lemma RankedBelow(f: Foreign, left: string, right: string)
    requires CompareLeq(f, left, right)
    ensures f.parseSemver(left).Some? ==>
              f.parseSemver(right).Some? && CoreAtMost(f.parseSemver(left).value, f.parseSemver(right).value)
  {
    var l, r := f.parseSemver(left), f.parseSemver(right);
    if l.Some? && r.Some? {
      Semver.CoreDecides(r.value, l.value);
    }
  }

  /** A stable version is one that parses and has no pre-release part. */
  predicate IsStable(f: Foreign, version: string) {
    var parsed := f.parseSemver(version);
    parsed.Some? && parsed.value.pre == []
  }

  /** `Iterator::max_by`: the last of the maxima. */
  function PickNewest(f: Foreign, candidates: seq<string>): (r: Option<string>)
    ensures r.None? <==> candidates == []
    ensures r.Some? ==> r.value in candidates
  {
    if candidates == [] then None
    else
      var last := candidates[|candidates| - 1];
      var best := PickNewest(f, candidates[..|candidates| - 1]);
      if best.Some? && !CompareLeq(f, best.value, last) then best else Some(last)
  }

  lemma {:induction false} PickNewestIsMaximum(f: Foreign, candidates: seq<string>)
    ensures var r := PickNewest(f, candidates);
      r.Some? ==> forall v :: v in candidates ==> CompareLeq(f, v, r.value)
  {
    if candidates != [] {
      var front, last := candidates[..|candidates| - 1], candidates[|candidates| - 1];
      PickNewestIsMaximum(f, front);
      var best, r := PickNewest(f, front), PickNewest(f, candidates);
      forall v | v in candidates
        ensures CompareLeq(f, v, r.value)
      {
        CompareTotalPreorder(f, last, if best.Some? then best.value else last, last);
        if v in front {
          CompareTotalPreorder(f, v, best.value, last);
        }
      }
    }
  }

  function StableAmong(f: Foreign, surviving: set<string>): set<string> {
    set v | v in surviving && IsStable(f, v)
  }

  function NewestSurviving(f: Foreign, surviving: set<string>, preferStable: bool): (r: Option<string>)
    ensures r.Some? ==> r.value in surviving
    ensures r.None? <==> surviving == {}
  {
    var stable := PickNewest(f, SortedKeys(StableAmong(f, surviving)));
    if preferStable && stable.Some? then stable else PickNewest(f, SortedKeys(surviving))
  }

  /** Where one tag goes: kept, moved to the newest candidate, or dropped. */
  function TagTarget(f: Foreign, target: Value, surviving: set<string>): Option<string> {
    if target.String? && target.text in surviving then Some(target.text)
    else NewestSurviving(f, surviving, !target.String? || IsStable(f, target.text))
  }

  function Repointed(f: Foreign, tags: map<string, Value>, surviving: set<string>): map<string, Value> {
    map tag | tag in tags && TagTarget(f, tags[tag], surviving).Some? ::
      String(TagTarget(f, tags[tag], surviving).value)
  }

  method RepointDistTags(f: Foreign, tags: map<string, Value>, surviving: set<string>) returns (out: map<string, Value>)
    ensures out == Repointed(f, tags, surviving)
  {
    out := map[];
    var rest := tags.Keys;
    while rest != {}
      invariant rest <= tags.Keys
      invariant forall t :: t in out <==> t in tags && t !in rest && TagTarget(f, tags[t], surviving).Some?
      invariant forall t :: t in out ==> out[t] == String(TagTarget(f, tags[t], surviving).value)
    {
      var tag :| tag in rest;
      rest := rest - {tag};
      var target := tags[tag];
      if target.String? && target.text in surviving {
        out := out[tag := String(target.text)];
      } else {
        var replacement := NewestSurviving(f, surviving, !target.String? || IsStable(f, target.text));
        if replacement.Some? {
          out := out[tag := String(replacement.value)];
        }
      }
    }
  }

  /**
   With downgrading on, no tag is left dangling: a tag with a surviving target is untouched, any
   other tag names the newest survivor (the newest stable one when the old target was stable, or
   no string, and a stable version survived), so that no candidate has a larger major, minor or
   patch; and it is dropped only when nothing survived.
   */
  lemma DowngradedTags(f: Foreign, tags: map<string, Value>, surviving: set<string>, tag: string)
    requires tag in tags
    ensures tag !in Repointed(f, tags, surviving) <==> surviving == {}
    ensures tag in Repointed(f, tags, surviving) ==>
      && var target, moved := tags[tag], Repointed(f, tags, surviving)[tag];
      && moved.String? && moved.text in surviving
      && (target.String? && target.text in surviving ==> moved == target)
      && (!(target.String? && target.text in surviving) ==>
            var onlyStable := (target.String? ==> IsStable(f, target.text)) && StableAmong(f, surviving) != {};
            && (onlyStable ==> IsStable(f, moved.text))
            && forall v :: v in surviving && (onlyStable ==> IsStable(f, v)) ==>
                 && CompareLeq(f, v, moved.text)
                 && (f.parseSemver(v).Some? ==>
                       && f.parseSemver(moved.text).Some?
                       && CoreAtMost(f.parseSemver(v).value, f.parseSemver(moved.text).value)))
  {
    forall v, w | CompareLeq(f, v, w) && f.parseSemver(v).Some?
      ensures f.parseSemver(w).Some? && CoreAtMost(f.parseSemver(v).value, f.parseSemver(w).value)
    {
      RankedBelow(f, v, w);
    }
    hide CompareLeq, CoreAtMost;
    PickNewestIsMaximum(f, SortedKeys(surviving));
    PickNewestIsMaximum(f, SortedKeys(StableAmong(f, surviving)));
    forall v | v in surviving
      ensures v in SortedKeys(surviving)
      ensures IsStable(f, v) ==> v in SortedKeys(StableAmong(f, surviving))
    {
    }
  }

  // -- the rebuilt document -----------------------------------------------------------------

  function Surviving(decisions: map<string, Decision>): set<string> {
    set v | v in decisions && decisions[v].Serve?
  }

  function KeptVersions(d: Document, surviving: set<string>): map<string, Value> {
    map v | v in d.versions && v in surviving :: d.versions[v]
  }

  function KeptTime(time: map<string, Value>, versions: map<string, Value>,
                    surviving: set<string>): map<string, Value> {
    map k | k in time && !(k in versions && k !in surviving) :: time[k]
  }

  function KeptTags(f: Foreign, cfg: Config, tags: map<string, Value>, surviving: set<string>): map<string, Value> {
    if cfg.allowDistTagDowngrade then Repointed(f, tags, surviving) else tags
  }

  function Rebuilt(f: Foreign, cfg: Config, d: Document, surviving: set<string>): map<string, Value> {
    var withVersions := d.root["versions" := Object(KeptVersions(d, surviving))];
    var withTime :=
      if d.time.Some? then withVersions["time" := Object(KeptTime(d.time.value, d.versions, surviving))]
      else withVersions;
    var tags := GetObject(d.root, "dist-tags");
    if tags.Some? then withTime["dist-tags" := Object(KeptTags(f, cfg, tags.value, surviving))] else withTime
  }

  /** One record per withheld version, in document order. */
  function Blocked(decisions: map<string, Decision>, keys: seq<string>): (r: seq<BlockRecord>)
    requires forall k :: k in keys ==> k in decisions
  {
    if keys == [] then []
    else
      var last := keys[|keys| - 1];
      Blocked(decisions, keys[..|keys| - 1]) +
      (if decisions[last].Block? then [BlockRecord(last, decisions[last].reason, decisions[last].evidence)] else [])
  }

  function Outcomes(f: Foreign, cfg: Config, d: Document, decisions: map<string, Decision>): Outcome
    requires decisions.Keys == d.versions.Keys
  {
    Outcome(Object(Rebuilt(f, cfg, d, Surviving(decisions))), Blocked(decisions, SortedKeys(d.versions.Keys)))
  }

  method Partition(decisions: map<string, Decision>) returns (blocked: seq<BlockRecord>, surviving: set<string>)
    ensures blocked == Blocked(decisions, SortedKeys(decisions.Keys)) && surviving == Surviving(decisions)
  {
    blocked, surviving := [], {};
    var keys := SortedKeys(decisions.Keys);
    hide SortedKeys;
    for i := 0 to |keys|
      invariant blocked == Blocked(decisions, keys[..i])
      invariant surviving == set v | v in Surviving(decisions) && v in keys[..i]
    {
      assert keys[..i + 1] == keys[..i] + [keys[i]];
      match decisions[keys[i]]
      case Serve => surviving := surviving + {keys[i]};
      case Block(reason, evidence) => blocked := blocked + [BlockRecord(keys[i], reason, evidence)];
    }
    assert keys[..|keys|] == keys;
  }

  /** The second half of `evaluate`: collect the survivors and rebuild, one loop per object. */
  method Rebuild(f: Foreign, cfg: Config, d: Document, decisions: map<string, Decision>) returns (outcome: Outcome)
    requires decisions.Keys == d.versions.Keys
    ensures outcome == Outcomes(f, cfg, d, decisions)
  {
    hide Surviving, Blocked, KeptVersions, KeptTime, Repointed, GetObject, SortedKeys;
    var blocked, surviving := Partition(decisions);
    var out := d.root;
    var keptVersions := RetainVersions(d, surviving);
    out := out["versions" := Object(keptVersions)];
    if d.time.Some? {
      var keptTime := RetainTime(d.time.value, d.versions, surviving);
      out := out["time" := Object(keptTime)];
    }
    var tags := GetObject(d.root, "dist-tags");
    if tags.Some? {
      var rebuilt := tags.value;
      if cfg.allowDistTagDowngrade {
        rebuilt := RepointDistTags(f, tags.value, surviving);
      }
      out := out["dist-tags" := Object(rebuilt)];
    }
    outcome := Outcome(Object(out), blocked);
  }

  method RetainVersions(d: Document, surviving: set<string>) returns (kept: map<string, Value>)
    ensures kept == KeptVersions(d, surviving)
  {
    kept := map[];
    var rest := d.versions.Keys;
    while rest != {}
      invariant rest <= d.versions.Keys
      invariant forall v :: v in kept <==> v in d.versions && v !in rest && v in surviving
      invariant forall v :: v in kept ==> kept[v] == d.versions[v]
    {
      var v :| v in rest;
      rest := rest - {v};
      if v in surviving {
        kept := kept[v := d.versions[v]];
      }
    }
  }

  method RetainTime(time: map<string, Value>, versions: map<string, Value>, surviving: set<string>)
    returns (kept: map<string, Value>)
    ensures kept == KeptTime(time, versions, surviving)
  {
    kept := map[];
    var rest := time.Keys;
    while rest != {}
      invariant rest <= time.Keys
      invariant forall k :: k in kept <==> k in time && k !in rest && !(k in versions && k !in surviving)
      invariant forall k :: k in kept ==> kept[k] == time[k]
    {
      var k :| k in rest;
      rest := rest - {k};
      if k in versions && k !in surviving {
        continue;
      }
      kept := kept[k := time[k]];
    }
  }

  /** What each part of the rebuilt document reads as. */
  lemma RebuiltParts(f: Foreign, cfg: Config, d: Document, surviving: set<string>)
    requires Parse(Object(d.root)) == Ok(d)
    ensures var out := Rebuilt(f, cfg, d, surviving);
      && Parse(Object(out)) == Ok(Document(out, d.name, KeptVersions(d, surviving),
            if d.time.Some? then Some(KeptTime(d.time.value, d.versions, surviving)) else None))
      && (var tags := GetObject(d.root, "dist-tags");
          GetObject(out, "dist-tags") == if tags.Some? then Some(KeptTags(f, cfg, tags.value, surviving)) else None)
  {
    var out := Rebuilt(f, cfg, d, surviving);
    assert "name" != "versions" && "name" != "time" && "name" != "dist-tags";
    assert "time" != "versions" && "dist-tags" != "versions" && "dist-tags" != "time" by {
      assert |"time"| != |"versions"| && |"dist-tags"| != |"versions"|;
    }
    assert out["name"] == d.root["name"];
    assert out["versions"] == Object(KeptVersions(d, surviving));
  }

  /** What an outcome's document reads as. */
  lemma OutcomeParts(f: Foreign, cfg: Config, d: Document, decisions: map<string, Decision>)
    requires decisions.Keys == d.versions.Keys
    requires Parse(Object(d.root)) == Ok(d)
    ensures var parsed := Parse(Outcomes(f, cfg, d, decisions).packument);
      && parsed.Ok?
      && parsed.value.name == d.name
      && parsed.value.versions == KeptVersions(d, Surviving(decisions))
      && parsed.value.time ==
           (if d.time.Some? then Some(KeptTime(d.time.value, d.versions, Surviving(decisions))) else None)
  {
    RebuiltParts(f, cfg, d, Surviving(decisions));
  }

  /** Which names the records carry. */
  lemma RecordedNames(decisions: map<string, Decision>, keys: set<string>)
    requires decisions.Keys == keys
    ensures var names := RecordNames(Blocked(decisions, SortedKeys(keys)));
      forall v :: v in names <==> v in decisions && decisions[v].Block?
  {
    BlockedRecords(decisions, SortedKeys(keys));
    var blocked := Blocked(decisions, SortedKeys(keys));
    forall v
      ensures v in RecordNames(blocked) <==> v in decisions && decisions[v].Block?
    {
      if v in decisions && decisions[v].Block? {
        var r := BlockRecord(v, decisions[v].reason, decisions[v].evidence);
        assert v in SortedKeys(keys);
        assert r in blocked;
        var i :| 0 <= i < |blocked| && blocked[i] == r;
        assert RecordNames(blocked)[i] == v;
      }
    }
  }

  function RecordNames(blocked: seq<BlockRecord>): (r: seq<string>)
    ensures |r| == |blocked|
    ensures forall i :: 0 <= i < |blocked| ==> r[i] == blocked[i].version
  {
    seq(|blocked|, i requires 0 <= i < |blocked| => blocked[i].version)
  }

  lemma {:induction false} BlockedRecords(decisions: map<string, Decision>, keys: seq<string>)
    requires forall k :: k in keys ==> k in decisions
    requires Distinct(keys)
    ensures var blocked := Blocked(decisions, keys);
      && Distinct(RecordNames(blocked))
      && (forall r :: r in blocked ==> r.version in keys && decisions[r.version] == Block(r.reason, r.evidence))
      && (forall k :: k in keys && decisions[k].Block? ==>
            BlockRecord(k, decisions[k].reason, decisions[k].evidence) in blocked)
  {
    if keys != [] {
      var front := keys[..|keys| - 1];
      BlockedRecords(decisions, front);
      assert forall k :: k in keys <==> k in front || k == keys[|keys| - 1];
      var blocked, before := Blocked(decisions, keys), Blocked(decisions, front);
      assert forall r :: r in before ==> r.version != keys[|keys| - 1];
      forall i, j | 0 <= i < j < |blocked|
        ensures blocked[i].version != blocked[j].version
      {
        assert blocked[i] == before[i];
        assert before[i] in before;
      }
    }
  }

  /**
   Filtering is conservative. Every version key is either kept with its metadata unchanged or
   withheld with exactly one record carrying its decision, never both; `time` loses exactly the
   withheld keys; every other key of the document is untouched.
   */
  lemma FilteringIsConservative(f: Foreign, cfg: Config, d: Document, decisions: map<string, Decision>)
    requires decisions.Keys == d.versions.Keys
    requires Parse(Object(d.root)) == Ok(d)
    ensures var outcome := Outcomes(f, cfg, d, decisions);
      && var after := Parse(outcome.packument);
      && after.Ok? && after.value.name == d.name
      && after.value.versions.Keys <= d.versions.Keys
      && Distinct(RecordNames(outcome.blocked))
      && (forall v :: v in d.versions ==> (v in after.value.versions <==> v !in RecordNames(outcome.blocked)))
      && (forall v :: v in after.value.versions ==> after.value.versions[v] == d.versions[v] && decisions[v].Serve?)
      && (forall r :: r in outcome.blocked ==>
            r.version in d.versions && decisions[r.version] == Block(r.reason, r.evidence))
      && (after.value.time.Some? <==> d.time.Some?)
      && (d.time.Some? ==>
            && (forall k :: k in after.value.time.value <==> k in d.time.value && k !in RecordNames(outcome.blocked))
            && (forall k :: k in after.value.time.value ==> after.value.time.value[k] == d.time.value[k]))
      && after.value.root.Keys == d.root.Keys
      && (forall k :: k in d.root && k !in {"versions", "time", "dist-tags"} ==> after.value.root[k] == d.root[k])
  {
    BlockedRecords(decisions, SortedKeys(d.versions.Keys));
    RecordedNames(decisions, d.versions.Keys);
    RebuiltParts(f, cfg, d, Surviving(decisions));
    RebuiltElsewhere(f, cfg, d, Surviving(decisions));
    var blocked := Blocked(decisions, SortedKeys(d.versions.Keys));
    assert forall r :: r in blocked ==> r.version in d.versions;
    hide Parse, GetObject, Rebuilt, Blocked, SortedKeys, RecordNames, Distinct;
  }

  lemma RebuiltElsewhere(f: Foreign, cfg: Config, d: Document, surviving: set<string>)
    requires Parse(Object(d.root)) == Ok(d)
    ensures var out := Rebuilt(f, cfg, d, surviving);
      && out.Keys == d.root.Keys
      && forall k :: k in d.root && k !in {"versions", "time", "dist-tags"} ==> out[k] == d.root[k]
  {
    hide KeptVersions, KeptTime, KeptTags;
  }

  /** Repointing a second time moves nothing: every tag already names a survivor. */
  lemma RepointIdempotent(f: Foreign, tags: map<string, Value>, surviving: set<string>)
    ensures Repointed(f, Repointed(f, tags, surviving), surviving) == Repointed(f, tags, surviving)
  {
  }

  /** Serving everything that survived a first pass reproduces that pass's document. */
  lemma SecondPassChangesNothing(f: Foreign, cfg: Config, d: Document, decisions: map<string, Decision>,
                                 again: map<string, Decision>)
    requires Parse(Object(d.root)) == Ok(d)
    requires decisions.Keys == d.versions.Keys
    requires again.Keys == Surviving(decisions)
    requires forall v :: v in again ==> again[v].Serve?
    ensures var first := Outcomes(f, cfg, d, decisions);
      && Parse(first.packument).Ok?
      && Parse(first.packument).value.versions.Keys == again.Keys
      && Outcomes(f, cfg, Parse(first.packument).value, again) == Outcome(first.packument, [])
  {
    var surviving := Surviving(decisions);
    RebuiltParts(f, cfg, d, surviving);
    var d2 := Parse(Object(Rebuilt(f, cfg, d, surviving))).value;
    assert d2.versions.Keys == surviving == Surviving(again);
    assert KeptVersions(d2, surviving) == d2.versions;
    if d.time.Some? {
      assert KeptTime(d2.time.value, d2.versions, surviving) == d2.time.value;
    }
    var tags := GetObject(d.root, "dist-tags");
    if tags.Some? {
      RepointIdempotent(f, tags.value, surviving);
    }
    RebuildingInPlace(f, cfg, d2, surviving);
    NothingBlocked(again, SortedKeys(d2.versions.Keys));
  }

  /** Rebuilding a document whose parts the rebuild keeps leaves the document as it is. */
  lemma RebuildingInPlace(f: Foreign, cfg: Config, d: Document, surviving: set<string>)
    requires Parse(Object(d.root)) == Ok(d)
    requires KeptVersions(d, surviving) == d.versions
    requires d.time.Some? ==> KeptTime(d.time.value, d.versions, surviving) == d.time.value
    requires var tags := GetObject(d.root, "dist-tags");
      tags.Some? ==> KeptTags(f, cfg, tags.value, surviving) == tags.value
    ensures Rebuilt(f, cfg, d, surviving) == d.root
  {
  }

  lemma {:induction false} NothingBlocked(decisions: map<string, Decision>, keys: seq<string>)
    requires forall k :: k in keys ==> k in decisions && decisions[k].Serve?
    ensures Blocked(decisions, keys) == []
  {
    if keys != [] {
      NothingBlocked(decisions, keys[..|keys| - 1]);
    }
  }

  // -- answers about withheld versions and tags -----------------------------------------------

  datatype WithheldDistTag = WithheldDistTag(tag: string, version: string, reason: Reason)

  function FindRecord(blocked: seq<BlockRecord>, version: string): (r: Option<BlockRecord>)
    ensures r.Some? ==> r.value in blocked && r.value.version == version
    ensures r.None? ==> version !in RecordNames(blocked)
  {
    if blocked == [] then None
    else if blocked[0].version == version then Some(blocked[0])
    else
      assert forall i :: 0 < i < |blocked| ==> RecordNames(blocked)[i] == RecordNames(blocked[1..])[i - 1];
      FindRecord(blocked[1..], version)
  }

  function WithheldTag(filtered: map<string, Value>, blocked: seq<BlockRecord>, tag: string, target: Value)
    : Option<WithheldDistTag>
  {
    var surviving := GetObject(filtered, "versions");
    if !target.String? || (surviving.Some? && target.text in surviving.value) then None
    else
      var record := FindRecord(blocked, target.text);
      if record.Some? then Some(WithheldDistTag(tag, target.text, record.value.reason)) else None
  }

  ghost predicate TagsAscend(listed: seq<WithheldDistTag>) {
    forall i, j :: 0 <= i < j < |listed| ==> listed[i].tag != listed[j].tag && StringLeq(listed[i].tag, listed[j].tag)
  }

  /** Which dist-tags name a version that was withheld: one entry each, in tag order. */
  method WithheldDistTags(filtered: map<string, Value>, blocked: seq<BlockRecord>) returns (out: seq<WithheldDistTag>)
    ensures var tags := GetObject(filtered, "dist-tags");
      forall w :: w in out <==>
        tags.Some? && w.tag in tags.value && WithheldTag(filtered, blocked, w.tag, tags.value[w.tag]) == Some(w)
    ensures TagsAscend(out)
  {
    hide StringLeq, SortedKeys;
    out := [];
    var tags := GetObject(filtered, "dist-tags");
    if tags.None? {
      return;
    }
    var keys := SortedKeys(tags.value.Keys);
    for i := 0 to |keys|
      invariant forall w :: w in out <==>
        w.tag in keys[..i] && WithheldTag(filtered, blocked, w.tag, tags.value[w.tag]) == Some(w)
      invariant TagsAscend(out)
    {
      assert keys[..i + 1] == keys[..i] + [keys[i]];
      forall k | 0 <= k < |out|
        ensures out[k].tag != keys[i] && StringLeq(out[k].tag, keys[i])
      {
        assert out[k] in out && out[k].tag in keys[..i];
        var at :| 0 <= at < i && keys[..i][at] == out[k].tag;
        SortedKeysAscend(tags.value.Keys, at, i);
      }
      var entry := WithheldTag(filtered, blocked, keys[i], tags.value[keys[i]]);
      if entry.Some? {
        out := out + [entry.value];
      }
    }
    assert keys[..|keys|] == keys;
  }

  /** An exact version, or what a dist-tag names. */
  function ResolveSpec(filtered: map<string, Value>, spec: string): Option<string> {
    var versions := GetObject(filtered, "versions");
    var tags := GetObject(filtered, "dist-tags");
    if versions.Some? && spec in versions.value then Some(spec)
    else if tags.Some? && spec in tags.value then AsStr(Some(tags.value[spec]))
    else None
  }

  datatype VersionAnswer =
    | Manifest(meta: Value)
    | VersionWithheld(version: string, reason: Reason)
    | VersionNotFound

  /** `serve_version` and `version_not_found`. */
  function AnswerVersion(filtered: map<string, Value>, blocked: seq<BlockRecord>, spec: string): VersionAnswer {
    var versions := GetObject(filtered, "versions");
    var resolved := ResolveSpec(filtered, spec);
    if resolved.Some? && versions.Some? && resolved.value in versions.value then
      Manifest(versions.value[resolved.value])
    else
      var target := if resolved.Some? then resolved.value else spec;
      var record := FindRecord(blocked, target);
      if record.Some? then VersionWithheld(target, record.value.reason) else VersionNotFound
  }

  /**
   Asking for an exact version. A version that is served answers with its metadata; one that was
   withheld says so and why, unless a tag of that very name leads elsewhere; and what is neither a
   version of the document nor a tag is not found.
   */
  lemma ExactVersionAnswers(f: Foreign, cfg: Config, d: Document, decisions: map<string, Decision>, v: string)
    requires Parse(Object(d.root)) == Ok(d) && decisions.Keys == d.versions.Keys
    ensures var outcome := Outcomes(f, cfg, d, decisions);
      var answer := AnswerVersion(outcome.packument.fields, outcome.blocked, v);
      var tags := GetObject(outcome.packument.fields, "dist-tags");
      && (v in d.versions && decisions[v].Serve? ==> answer == Manifest(d.versions[v]))
      && (v in d.versions && decisions[v].Block? && (tags.Some? ==> v !in tags.value) ==>
            answer == VersionWithheld(v, decisions[v].reason))
      && (v !in d.versions && (tags.Some? ==> v !in tags.value) ==> answer == VersionNotFound)
  {
    RebuiltParts(f, cfg, d, Surviving(decisions));
    RecordedExactlyWhenBlocked(f, cfg, d, decisions, v);
    var fields, kept := Rebuilt(f, cfg, d, Surviving(decisions)), KeptVersions(d, Surviving(decisions));
    assert GetObject(fields, "versions") == Some(kept);
    assert v in kept <==> v in d.versions && decisions[v].Serve?;
    hide Rebuilt, Parse, Blocked, KeptTags, KeptTime, GetObject, SortedKeys, FindRecord;
  }

  /**
   With downgrading off, the withheld-tag summary and the single-version endpoint agree: a tag
   that is not itself a version key is listed exactly when asking for it is answered
   version_withheld, with the same version and reason, and that is exactly when its target was
   withheld.
   */
  lemma ListedTagsAreWithheld(f: Foreign, cfg: Config, d: Document, decisions: map<string, Decision>,
                              tags: map<string, Value>, tag: string)
    requires Parse(Object(d.root)) == Ok(d)
    requires decisions.Keys == d.versions.Keys
    requires !cfg.allowDistTagDowngrade
    requires GetObject(d.root, "dist-tags") == Some(tags)
    requires tag in tags && tag !in d.versions
    ensures var outcome := Outcomes(f, cfg, d, decisions);
      var listed := WithheldTag(outcome.packument.fields, outcome.blocked, tag, tags[tag]);
      var answer := AnswerVersion(outcome.packument.fields, outcome.blocked, tag);
      && GetObject(outcome.packument.fields, "dist-tags") == Some(tags)
      && (listed.Some? <==> answer.VersionWithheld?)
      && (listed.Some? <==> tags[tag].String? && tags[tag].text in decisions && decisions[tags[tag].text].Block?)
      && (listed.Some? ==> answer == VersionWithheld(listed.value.version, listed.value.reason)
                           && listed.value.version == tags[tag].text
                           && listed.value.reason == decisions[tags[tag].text].reason)
  {
    RebuiltParts(f, cfg, d, Surviving(decisions));
    var outcome := Outcomes(f, cfg, d, decisions);
    RecordedExactlyWhenBlocked(f, cfg, d, decisions, tag);
    if tags[tag].String? {
      RecordedExactlyWhenBlocked(f, cfg, d, decisions, tags[tag].text);
    }
    TagAnswers(outcome.packument.fields, outcome.blocked, KeptVersions(d, Surviving(decisions)), tags, tag);
  }

  /** How the listing and the endpoint read one tag, in terms of the parts of the document. */
  lemma TagAnswers(fields: map<string, Value>, blocked: seq<BlockRecord>, kept: map<string, Value>,
                   tags: map<string, Value>, tag: string)
    requires GetObject(fields, "versions") == Some(kept)
    requires GetObject(fields, "dist-tags") == Some(tags)
    requires tag in tags && tag !in kept
    ensures var target := tags[tag];
      var record := FindRecord(blocked, if target.String? then target.text else tag);
      && (target.String? && target.text in kept ==>
            WithheldTag(fields, blocked, tag, target).None?
            && AnswerVersion(fields, blocked, tag) == Manifest(kept[target.text]))
      && (target.String? && target.text !in kept ==>
            && WithheldTag(fields, blocked, tag, target) ==
                 (if record.Some? then Some(WithheldDistTag(tag, target.text, record.value.reason)) else None)
            && AnswerVersion(fields, blocked, tag) ==
                 (if record.Some? then VersionWithheld(target.text, record.value.reason) else VersionNotFound))
      && (!target.String? ==>
            && WithheldTag(fields, blocked, tag, target).None?
            && AnswerVersion(fields, blocked, tag) ==
                 (if record.Some? then VersionWithheld(tag, record.value.reason) else VersionNotFound))
  {
  }

  /** With downgrading on, no tag of the answered document names a withheld version. */
  lemma DowngradedTagsAreNeverWithheld(f: Foreign, cfg: Config, d: Document, decisions: map<string, Decision>,
                                       tags: map<string, Value>, tag: string)
    requires Parse(Object(d.root)) == Ok(d)
    requires decisions.Keys == d.versions.Keys
    requires cfg.allowDistTagDowngrade
    requires GetObject(Outcomes(f, cfg, d, decisions).packument.fields, "dist-tags") == Some(tags)
    requires tag in tags
    ensures var outcome := Outcomes(f, cfg, d, decisions);
      && WithheldTag(outcome.packument.fields, outcome.blocked, tag, tags[tag]).None?
      && AnswerVersion(outcome.packument.fields, outcome.blocked, tag).Manifest?
  {
    var fields, kept := Rebuilt(f, cfg, d, Surviving(decisions)), KeptVersions(d, Surviving(decisions));
    TagsNameSurvivors(f, cfg, d, decisions, tags, tag);
    hide Rebuilt, KeptVersions, Surviving, Parse, WithheldTag, AnswerVersion, Blocked, SortedKeys;
    KeptTagAnswers(fields, Outcomes(f, cfg, d, decisions).blocked, kept, tags, tag);
  }

  /** With downgrading on, a remaining tag names a kept version. */
  lemma TagsNameSurvivors(f: Foreign, cfg: Config, d: Document, decisions: map<string, Decision>,
                          tags: map<string, Value>, tag: string)
    requires Parse(Object(d.root)) == Ok(d)
    requires decisions.Keys == d.versions.Keys
    requires cfg.allowDistTagDowngrade
    requires GetObject(Rebuilt(f, cfg, d, Surviving(decisions)), "dist-tags") == Some(tags)
    requires tag in tags
    ensures var kept := KeptVersions(d, Surviving(decisions));
      && GetObject(Rebuilt(f, cfg, d, Surviving(decisions)), "versions") == Some(kept)
      && tags[tag].String? && tags[tag].text in kept
  {
    var surviving := Surviving(decisions);
    RebuiltParts(f, cfg, d, surviving);
    hide Rebuilt, KeptTime, SortedKeys;
    DowngradedTags(f, GetObject(d.root, "dist-tags").value, surviving, tag);
  }

  lemma KeptTagAnswers(fields: map<string, Value>, blocked: seq<BlockRecord>, kept: map<string, Value>,
                       tags: map<string, Value>, tag: string)
    requires GetObject(fields, "versions") == Some(kept) && GetObject(fields, "dist-tags") == Some(tags)
    requires tag in tags && tags[tag].String? && tags[tag].text in kept
    ensures WithheldTag(fields, blocked, tag, tags[tag]).None? && AnswerVersion(fields, blocked, tag).Manifest?
  {
    hide GetObject;
  }

  lemma RecordedExactlyWhenBlocked(f: Foreign, cfg: Config, d: Document, decisions: map<string, Decision>, v: string)
    requires decisions.Keys == d.versions.Keys
    ensures var record := FindRecord(Outcomes(f, cfg, d, decisions).blocked, v);
      && (record.Some? <==> v in decisions && decisions[v].Block?)
      && (record.Some? ==> record.value == BlockRecord(v, decisions[v].reason, decisions[v].evidence))
  {
    var keys := SortedKeys(d.versions.Keys);
    var blocked := Blocked(decisions, keys);
    BlockedRecords(decisions, keys);
    if v in decisions && decisions[v].Block? {
      assert v in keys;
      var r := BlockRecord(v, decisions[v].reason, decisions[v].evidence);
      assert r in blocked;
      var i :| 0 <= i < |blocked| && blocked[i] == r;
      assert RecordNames(blocked)[i] == v;
    }
  }
}
