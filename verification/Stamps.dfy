/** The labels and annotations every rendered document carries. */
module Stamps {
  import opened Values
  import opened PathGrammar
  import opened DocHeap
  import opened Targets

  datatype Labels = Labels(release: string, template: string, version: int, releaseId: string, appliedBy: string, appliedAt: string)

  const RELEASE := "kuberport.io/release"
  const MANAGED := "kuberport.io/managed"
  const TEMPLATE := "kuberport.io/template"
  const TEMPLATE_VERSION := "kuberport.io/template-version"
  const RELEASE_ID := "kuberport.io/release-id"
  const APPLIED_BY := "kuberport.io/applied-by"
  const APPLIED_AT := "kuberport.io/applied-at"

  function IntText(i: int): string {
    if i < 0 then "-" + Decimal(-i) else Decimal(i)
  }

  function StrLeaf(s: string): Value {
    Leaf(Str(s))
  }

  function LabelEntries(l: Labels): Doc {
    map[MANAGED := StrLeaf("true"), RELEASE := StrLeaf(l.release), TEMPLATE := StrLeaf(l.template),
        TEMPLATE_VERSION := StrLeaf(IntText(l.version))]
  }

  function NoteEntries(l: Labels): Doc {
    map[RELEASE_ID := StrLeaf(l.releaseId), APPLIED_BY := StrLeaf(l.appliedBy), APPLIED_AT := StrLeaf(l.appliedAt)]
  }

  /** The map under `key`; anything else found there gives way to an empty map. */
  function MapUnder(m: Doc, key: string): Doc {
    if key in m && m[key].Map? then m[key].m else map[]
  }

  predicate HasMap(m: Doc, key: string) {
    key in m && m[key].Map?
  }

  function Labelled(meta: Doc, l: Labels): Doc {
    meta["labels" := Map(MapUnder(meta, "labels") + LabelEntries(l))]
  }

  function Annotated(meta: Doc, l: Labels): Doc {
    meta["annotations" := Map(MapUnder(meta, "annotations") + NoteEntries(l))]
  }

  /** A map whose entry `template`, if a map, is a pod template to be labelled. */
  function PodLabelled(spec: Doc, l: Labels): Doc {
    if !HasMap(spec, "template") then spec
    else
      var tmpl := spec["template"].m;
      spec["template" := Map(tmpl["metadata" := Map(Labelled(MapUnder(tmpl, "metadata"), l))])]
  }

  /** The same one level down, as cron jobs nest it. */
  function JobLabelled(spec: Doc, l: Labels): Doc {
    if !HasMap(spec, "jobTemplate") || !HasMap(spec["jobTemplate"].m, "spec") then spec
    else
      var job := spec["jobTemplate"].m;
      spec["jobTemplate" := Map(job["spec" := Map(PodLabelled(job["spec"].m, l))])]
  }

  function Stamp(d: Doc, l: Labels): Doc {
    var named := d["metadata" := Map(Annotated(Labelled(MapUnder(d, "metadata"), l), l))];
    if !HasMap(named, "spec") then named
    else named["spec" := Map(JobLabelled(PodLabelled(named["spec"].m, l), l))]
  }

  // --- Stamping in place ---

  /** The heap stores the map `s` at the object `o`. */
  ghost predicate MapAt(o: MapObj, s: Shape)
    reads Foot(s)
  {
    s.SMap? && s.o == o && Stored(s)
  }

  lemma MapValue(s: Shape)
    requires s.SMap?
    ensures ValueOf(s) == Map(EntriesOf(s.kids))
  {
  }

  /** The map under `key`, made first when there is none; anything else there gives way. */
  method EnsureMap(o: MapObj, key: string, ghost s: Shape, ghost taken: set<object>)
    returns (child: MapObj, ghost kid: Shape, ghost rest: set<object>)
    requires MapAt(o, s) && s.foot <= taken
    modifies o
    ensures MapAt(child, kid) && EntriesOf(kid.kids) == MapUnder(EntriesOf(s.kids), key)
    ensures StoredButKey(o, s.kids[key := SNull], rest, key) && o.m[key] == MapRef(child)
    ensures rest <= s.foot && kid.foot !! rest && fresh(kid.foot - s.foot) && kid.foot - s.foot !! taken
  {
    if key in o.m && o.m[key].MapRef? {
      child, kid := o.m[key].o, s.kids[key];
      MapValue(kid);
      WriteEntry(o, key, MapRef(child), s.kids, s.foot);
    } else {
      child := new MapObj();
      kid := SMap(child, map[], {child});
      WriteEntry(o, key, MapRef(child), s.kids, s.foot);
    }
    rest := s.foot - FootAt(s.kids, key);
  }

  /** The map with its entry `key` filled again. */
  lemma Refilled(o: MapObj, s: Shape, key: string, rest: set<object>, kid: Shape) returns (after: Shape)
    requires s.SMap? && StoredButKey(o, s.kids[key := SNull], rest, key) && o.m[key] == RefOf(kid)
    requires Stored(kid) && Foot(kid) !! rest
    ensures MapAt(o, after) && after.foot == rest + Foot(kid)
    ensures EntriesOf(after.kids) == EntriesOf(s.kids)[key := ValueOf(kid)]
  {
    FillKey(o, s.kids, rest, key, kid);
    after := SMap(o, s.kids[key := kid], rest + Foot(kid));
    ValueOfEntry(o, s.kids, after.foot, key, kid);
    MapValue(after);
  }

  method PutText(o: MapObj, key: string, text: string, ghost s: Shape) returns (ghost after: Shape)
    requires MapAt(o, s)
    modifies o
    ensures MapAt(o, after) && after.foot == s.foot && EntriesOf(after.kids) == EntriesOf(s.kids)[key := StrLeaf(text)]
  {
    AssignEntry(o, key, ScalarRef(Str(text)), s.kids, s.foot, SLeaf(Str(text)));
    after := SMap(o, s.kids[key := SLeaf(Str(text))], s.foot);
    assert s.foot + Foot(SLeaf(Str(text))) == s.foot;
    ValueOfEntry(o, s.kids, s.foot, key, SLeaf(Str(text)));
    MapValue(after);
  }

  /** The four labels, one after the other. */
  method PutLabels(lbls: MapObj, l: Labels, ghost s: Shape) returns (ghost after: Shape)
    requires MapAt(lbls, s)
    modifies lbls
    ensures MapAt(lbls, after) && after.foot == s.foot && EntriesOf(after.kids) == EntriesOf(s.kids) + LabelEntries(l)
  {
    ghost var k1 := PutText(lbls, MANAGED, "true", s);
    ghost var k2 := PutText(lbls, RELEASE, l.release, k1);
    ghost var k3 := PutText(lbls, TEMPLATE, l.template, k2);
    after := PutText(lbls, TEMPLATE_VERSION, IntText(l.version), k3);
    LabelsMerged(EntriesOf(s.kids), l);
  }

  lemma LabelsMerged(m: Doc, l: Labels)
    ensures m[MANAGED := StrLeaf("true")][RELEASE := StrLeaf(l.release)][TEMPLATE := StrLeaf(l.template)][TEMPLATE_VERSION := StrLeaf(IntText(l.version))]
         == m + LabelEntries(l)
  {
  }

  method PutNotes(anns: MapObj, l: Labels, ghost s: Shape) returns (ghost after: Shape)
    requires MapAt(anns, s)
    modifies anns
    ensures MapAt(anns, after) && after.foot == s.foot && EntriesOf(after.kids) == EntriesOf(s.kids) + NoteEntries(l)
  {
    ghost var k1 := PutText(anns, RELEASE_ID, l.releaseId, s);
    ghost var k2 := PutText(anns, APPLIED_BY, l.appliedBy, k1);
    after := PutText(anns, APPLIED_AT, l.appliedAt, k2);
    NotesMerged(EntriesOf(s.kids), l);
  }

  lemma NotesMerged(m: Doc, l: Labels)
    ensures m[RELEASE_ID := StrLeaf(l.releaseId)][APPLIED_BY := StrLeaf(l.appliedBy)][APPLIED_AT := StrLeaf(l.appliedAt)] == m + NoteEntries(l)
  {
  }

  /** The map at `o` now holds `d`, and its document has grown by new objects only. */
  ghost predicate Holds(o: MapObj, before: set<object>, after: Shape, taken: set<object>, d: Doc)
    reads Foot(after)
  {
    MapAt(o, after) && EntriesOf(after.kids) == d && after.foot - before !! taken
  }

  method StampLabelsOnto(meta: MapObj, l: Labels, ghost s: Shape, ghost taken: set<object>) returns (ghost after: Shape)
    requires MapAt(meta, s) && s.foot <= taken
    modifies s.foot
    ensures Holds(meta, s.foot, after, taken, Labelled(EntriesOf(s.kids), l)) && fresh(after.foot - s.foot)
  {
    var lbls;
    ghost var kid, rest;
    lbls, kid, rest := EnsureMap(meta, "labels", s, taken);
    kid := PutLabels(lbls, l, kid);
    MapValue(kid);
    after := Refilled(meta, s, "labels", rest, kid);
  }

  method StampNotes(meta: MapObj, l: Labels, ghost s: Shape, ghost taken: set<object>) returns (ghost after: Shape)
    requires MapAt(meta, s) && s.foot <= taken
    modifies s.foot
    ensures Holds(meta, s.foot, after, taken, Annotated(EntriesOf(s.kids), l)) && fresh(after.foot - s.foot)
  {
    var anns;
    ghost var kid, rest;
    anns, kid, rest := EnsureMap(meta, "annotations", s, taken);
    kid := PutNotes(anns, l, kid);
    MapValue(kid);
    after := Refilled(meta, s, "annotations", rest, kid);
  }

  /** Labels below the metadata of a pod template. */
  method StampTemplate(tmpl: MapObj, l: Labels, ghost s: Shape, ghost taken: set<object>) returns (ghost after: Shape)
    requires MapAt(tmpl, s) && s.foot <= taken
    modifies s.foot
    ensures Holds(tmpl, s.foot, after, taken, EntriesOf(s.kids)["metadata" := Map(Labelled(MapUnder(EntriesOf(s.kids), "metadata"), l))])
    ensures fresh(after.foot - s.foot)
  {
    var meta;
    ghost var kid, rest;
    meta, kid, rest := EnsureMap(tmpl, "metadata", s, taken);
    ghost var labelled := StampLabelsOnto(meta, l, kid, taken + kid.foot);
    MapValue(labelled);
    after := Refilled(tmpl, s, "metadata", rest, labelled);
  }

  method StampBoth(meta: MapObj, l: Labels, ghost s: Shape, ghost taken: set<object>) returns (ghost after: Shape)
    requires MapAt(meta, s) && s.foot <= taken
    modifies s.foot
    ensures Holds(meta, s.foot, after, taken, Annotated(Labelled(EntriesOf(s.kids), l), l)) && fresh(after.foot - s.foot)
  {
    ghost var labelled := StampLabelsOnto(meta, l, s, taken);
    after := StampNotes(meta, l, labelled, taken + labelled.foot);
  }

  /** Labels and annotations below the metadata of a document. */
  method StampMetadata(obj: MapObj, l: Labels, ghost s: Shape, ghost taken: set<object>) returns (ghost after: Shape)
    requires MapAt(obj, s) && s.foot <= taken
    modifies s.foot
    ensures
      var meta := Annotated(Labelled(MapUnder(EntriesOf(s.kids), "metadata"), l), l);
      Holds(obj, s.foot, after, taken, EntriesOf(s.kids)["metadata" := Map(meta)])
    ensures fresh(after.foot - s.foot)
  {
    var meta;
    ghost var kid, rest;
    meta, kid, rest := EnsureMap(obj, "metadata", s, taken);
    ghost var noted := StampBoth(meta, l, kid, taken + kid.foot);
    MapValue(noted);
    after := Refilled(obj, s, "metadata", rest, noted);
  }

  /** The map under `key`, when there is one. */
  method FindMap(o: MapObj, key: string, ghost s: Shape) returns (child: Option<MapObj>, ghost kid: Shape, ghost rest: set<object>)
    requires MapAt(o, s)
    ensures child.Some? <==> HasMap(EntriesOf(s.kids), key)
    ensures child.Some? ==>
      && MapAt(child.value, kid) && ValueOf(kid) == EntriesOf(s.kids)[key] && EntriesOf(kid.kids) == EntriesOf(s.kids)[key].m
      && StoredButKey(o, s.kids[key := SNull], rest, key) && o.m[key] == MapRef(child.value)
      && rest <= s.foot && kid.foot <= s.foot && kid.foot !! rest
  {
    kid, rest := SNull, {};
    if key in o.m && o.m[key].MapRef? {
      kid, rest := s.kids[key], s.foot - Foot(s.kids[key]);
      MapValue(kid);
      KidsApart(o, s.kids, s.foot, key);
      return Some(o.m[key].o), kid, rest;
    }
    child := None;
  }

  method StampPodTemplate(spec: MapObj, l: Labels, ghost s: Shape, ghost taken: set<object>) returns (ghost after: Shape)
    requires MapAt(spec, s) && s.foot <= taken
    modifies s.foot
    ensures Holds(spec, s.foot, after, taken, PodLabelled(EntriesOf(s.kids), l)) && fresh(after.foot - s.foot)
  {
    var tmpl;
    ghost var kid, rest;
    tmpl, kid, rest := FindMap(spec, "template", s);
    after := s;
    if tmpl.Some? {
      ghost var done := StampTemplate(tmpl.value, l, kid, taken);
      MapValue(done);
      after := Refilled(spec, s, "template", rest, done);
    }
  }

  /** The pod template of a cron job, two maps further down. */
  method StampJobTemplate(spec: MapObj, l: Labels, ghost s: Shape, ghost taken: set<object>) returns (ghost after: Shape)
    requires MapAt(spec, s) && s.foot <= taken
    modifies s.foot
    ensures Holds(spec, s.foot, after, taken, JobLabelled(EntriesOf(s.kids), l)) && fresh(after.foot - s.foot)
  {
    var job, jobSpec;
    ghost var kid, rest, inner, innerRest;
    job, kid, rest := FindMap(spec, "jobTemplate", s);
    after := s;
    if job.None? { return; }
    jobSpec, inner, innerRest := FindMap(job.value, "spec", kid);
    if jobSpec.None? { return; }
    ghost var done := StampPodTemplate(jobSpec.value, l, inner, taken);
    MapValue(done);
    ghost var filled := Refilled(job.value, kid, "spec", innerRest, done);
    MapValue(filled);
    after := Refilled(spec, s, "jobTemplate", rest, filled);
  }

  method StampSpec(obj: MapObj, l: Labels, ghost s: Shape, ghost taken: set<object>) returns (ghost after: Shape)
    requires MapAt(obj, s) && s.foot <= taken
    modifies s.foot
    ensures
      var d := EntriesOf(s.kids);
      Holds(obj, s.foot, after, taken, if HasMap(d, "spec") then d["spec" := Map(JobLabelled(PodLabelled(d["spec"].m, l), l))] else d)
    ensures fresh(after.foot - s.foot)
  {
    var spec;
    ghost var kid, rest;
    spec, kid, rest := FindMap(obj, "spec", s);
    after := s;
    if spec.Some? {
      ghost var pods := StampPodTemplate(spec.value, l, kid, taken);
      ghost var jobs := StampJobTemplate(spec.value, l, pods, taken + pods.foot);
      MapValue(jobs);
      after := Refilled(obj, s, "spec", rest, jobs);
    }
  }

  /** Stamping one document, in place. */
  method StampLabels(obj: MapObj, l: Labels, ghost doc: Shape, ghost taken: set<object>) returns (ghost after: Shape)
    requires MapAt(obj, doc) && doc.foot <= taken
    modifies doc.foot
    ensures Holds(obj, doc.foot, after, taken, Stamp(EntriesOf(doc.kids), l)) && fresh(after.foot - doc.foot)
  {
    ghost var named := StampMetadata(obj, l, doc, taken);
    after := StampSpec(obj, l, named, taken + named.foot);
  }

  // --- What the stamps say ---

  function Keys(names: seq<string>): Path {
    seq(|names|, i requires 0 <= i < |names| => Key(names[i]))
  }

  const POD: Path := [Key("spec"), Key("template")]
  const CRON_POD: Path := [Key("spec"), Key("jobTemplate"), Key("spec"), Key("template")]

  /** Where a document is labelled: at the top, and wherever it holds a pod template. */
  predicate IsHome(d: Doc, home: Path) {
    home == [] || ((home == POD || home == CRON_POD) && Get(Map(d), home).Some? && Get(Map(d), home).value.Map?)
  }

  function LabelPath(home: Path, k: string): Path {
    home + [Key("metadata"), Key("labels"), Key(k)]
  }

  lemma GetKey(m: Doc, k: string, p: Path)
    ensures Get(Map(m), [Key(k)] + p) == if k in m then Get(m[k], p) else None
  {
    assert ([Key(k)] + p)[1..] == p;
  }

  lemma LabelledReads(meta: Doc, l: Labels, k: string)
    requires k in LabelEntries(l)
    ensures Get(Map(Labelled(meta, l)), [Key("labels"), Key(k)]) == Some(LabelEntries(l)[k])
  {
    assert [Key("labels"), Key(k)] == [Key("labels")] + ([Key(k)] + []);
    GetKey(Labelled(meta, l), "labels", [Key(k)] + []);
    GetKey(Labelled(meta, l)["labels"].m, k, []);
  }

  lemma PodReads(spec: Doc, l: Labels, k: string)
    requires k in LabelEntries(l) && HasMap(spec, "template")
    ensures Get(Map(PodLabelled(spec, l)), LabelPath([Key("template")], k)) == Some(LabelEntries(l)[k])
  {
    var tail := [Key("labels"), Key(k)];
    var meta := MapUnder(spec["template"].m, "metadata");
    LabelledReads(meta, l, k);
    GetKey(PodLabelled(spec, l)["template"].m, "metadata", tail);
    GetKey(PodLabelled(spec, l), "template", [Key("metadata")] + tail);
    assert LabelPath([Key("template")], k) == [Key("template")] + ([Key("metadata")] + tail);
  }

  lemma CronPodReads(spec: Doc, l: Labels, k: string)
    requires k in LabelEntries(l) && Get(Map(spec), CRON_POD[1..]).Some? && Get(Map(spec), CRON_POD[1..]).value.Map?
    ensures Get(Map(JobLabelled(PodLabelled(spec, l), l)), LabelPath(CRON_POD[1..], k)) == Some(LabelEntries(l)[k])
  {
    var pods := PodLabelled(spec, l);
    var tail := LabelPath([Key("template")], k);
    assert CRON_POD[1..] == [Key("jobTemplate")] + ([Key("spec")] + ([Key("template")] + []));
    GetKey(spec, "jobTemplate", [Key("spec")] + ([Key("template")] + []));
    var job := spec["jobTemplate"].m;
    GetKey(job, "spec", [Key("template")] + []);
    GetKey(job["spec"].m, "template", []);
    assert pods["jobTemplate"] == spec["jobTemplate"];
    PodReads(job["spec"].m, l, k);
    var out := JobLabelled(pods, l);
    GetKey(out["jobTemplate"].m, "spec", tail);
    GetKey(out, "jobTemplate", [Key("spec")] + tail);
    assert LabelPath(CRON_POD[1..], k) == [Key("jobTemplate")] + ([Key("spec")] + tail);
  }

  lemma TopReads(d: Doc, l: Labels, k: string)
    requires k in LabelEntries(l)
    ensures Get(Map(Stamp(d, l)), LabelPath([], k)) == Some(LabelEntries(l)[k])
  {
    var labels := [Key("labels")] + [Key(k)];
    var meta := Labelled(MapUnder(d, "metadata"), l);
    LabelledReads(MapUnder(d, "metadata"), l, k);
    GetKey(meta, "labels", [Key(k)]);
    GetKey(Annotated(meta, l), "labels", [Key(k)]);
    GetKey(Stamp(d, l), "metadata", labels);
    assert LabelPath([], k) == [Key("metadata")] + labels;
  }

  /** Every label is readable afterwards at the document and at every pod template in it. */
  lemma StampsAreReadable(d: Doc, l: Labels, home: Path, k: string)
    requires IsHome(d, home) && k in LabelEntries(l)
    ensures Get(Map(Stamp(d, l)), LabelPath(home, k)) == Some(LabelEntries(l)[k])
  {
    var out := Stamp(d, l);
    var labels := [Key("labels"), Key(k)];
    if home == [] {
      TopReads(d, l, k);
    } else {
      assert home == [Key("spec")] + home[1..];
      GetKey(d, "spec", home[1..]);
      assert HasMap(d, "spec") by { assert home[1..] != []; }
      var spec := d["spec"].m;
      if home == POD {
        assert POD[1..] == [Key("template")] + [];
        GetKey(spec, "template", []);
        PodReads(spec, l, k);
        var pods := PodLabelled(spec, l);
        assert JobLabelled(pods, l)["template"] == pods["template"];
        var rest := [Key("metadata")] + labels;
        GetKey(pods, "template", rest);
        GetKey(JobLabelled(pods, l), "template", rest);
        assert LabelPath([Key("template")], k) == [Key("template")] + rest;
        assert LabelPath(home, k) == [Key("spec")] + LabelPath([Key("template")], k);
      } else {
        CronPodReads(spec, l, k);
        assert LabelPath(home, k) == [Key("spec")] + LabelPath(CRON_POD[1..], k);
      }
      GetKey(out, "spec", LabelPath(home[1..], k));
      assert LabelPath(home, k) == [Key("spec")] + LabelPath(home[1..], k);
    }
  }

  /** The four labels in full, at the document and at the pod templates it holds. */
  lemma LabelTexts(d: Doc, l: Labels, home: Path)
    requires home in {[], [Key("spec"), Key("template")], [Key("spec"), Key("jobTemplate"), Key("spec"), Key("template")]}
    requires Get(Map(d), home).Some? && Get(Map(d), home).value.Map? && l.version >= 0
    ensures
      var out, labels := Map(Stamp(d, l)), home + [Key("metadata"), Key("labels")];
      && Get(out, labels + [Key("kuberport.io/managed")]) == Some(Leaf(Str("true")))
      && Get(out, labels + [Key("kuberport.io/release")]) == Some(Leaf(Str(l.release)))
      && Get(out, labels + [Key("kuberport.io/template")]) == Some(Leaf(Str(l.template)))
      && Get(out, labels + [Key("kuberport.io/template-version")]) == Some(Leaf(Str(Decimal(l.version))))
  {
    forall k | k in LabelEntries(l)
      ensures Get(Map(Stamp(d, l)), home + [Key("metadata"), Key("labels")] + [Key(k)]) == Some(LabelEntries(l)[k])
    {
      StampsAreReadable(d, l, home, k);
      assert home + [Key("metadata"), Key("labels")] + [Key(k)] == LabelPath(home, k);
    }
  }

  /** The three annotations in full, at the document. */
  lemma NoteTexts(d: Doc, l: Labels)
    ensures
      var out, notes := Map(Stamp(d, l)), [Key("metadata"), Key("annotations")];
      && Get(out, notes + [Key("kuberport.io/release-id")]) == Some(Leaf(Str(l.releaseId)))
      && Get(out, notes + [Key("kuberport.io/applied-by")]) == Some(Leaf(Str(l.appliedBy)))
      && Get(out, notes + [Key("kuberport.io/applied-at")]) == Some(Leaf(Str(l.appliedAt)))
  {
    var meta := Labelled(MapUnder(d, "metadata"), l);
    forall k | k in NoteEntries(l)
      ensures Get(Map(Stamp(d, l)), [Key("metadata"), Key("annotations")] + [Key(k)]) == Some(NoteEntries(l)[k])
    {
      GetKey(Annotated(meta, l)["annotations"].m, k, []);
      GetKey(Annotated(meta, l), "annotations", [Key(k)]);
      GetKey(Stamp(d, l), "metadata", [Key("annotations")] + [Key(k)]);
      assert [Key("metadata"), Key("annotations")] + [Key(k)] == [Key("metadata")] + ([Key("annotations")] + [Key(k)]);
      assert [Key(k)] + [] == [Key(k)];
    }
  }

  // --- What the stamps leave alone ---

  /** `q` leaves `p` at some step, and leaves it through a map key. */
  predicate PartsAtKey(p: Path, q: Path)
    decreases |p|
  {
    p != [] && q != [] && if p[0] == q[0] then PartsAtKey(p[1..], q[1..]) else q[0].Key?
  }

  predicate IsLabelKey(k: string) {
    k == MANAGED || k == RELEASE || k == TEMPLATE || k == TEMPLATE_VERSION
  }

  predicate IsNoteKey(k: string) {
    k == RELEASE_ID || k == APPLIED_BY || k == APPLIED_AT
  }

  /** Outside the stamped places below one home; notes are written only at the top. */
  ghost predicate OutsideLabels(q: Path) {
    forall k :: IsLabelKey(k) ==> PartsAtKey([Key("metadata"), Key("labels"), Key(k)], q)
  }

  ghost predicate OutsideNotes(q: Path) {
    forall k :: IsNoteKey(k) ==> PartsAtKey([Key("metadata"), Key("annotations"), Key(k)], q)
  }

  /** Reading below `home`: outside its labels, or not below it at all. */
  ghost predicate OutsidePod(home: Path, q: Path) {
    forall k :: IsLabelKey(k) ==> PartsAtKey(LabelPath(home, k), q)
  }

  ghost predicate OutsideStamps(q: Path) {
    OutsideLabels(q) && OutsideNotes(q) && OutsidePod(POD, q) && OutsidePod(CRON_POD, q)
  }

  lemma PartsBelow(s: Seg, p: Path, q: Path)
    ensures PartsAtKey([s] + p, q) <==> q != [] && if s == q[0] then PartsAtKey(p, q[1..]) else q[0].Key?
  {
    assert ([s] + p)[1..] == p;
  }

  /** A merge of reserved entries under `key` is invisible outside them. */
  lemma MergeFrame(m: Doc, key: string, extra: Doc, q: Path)
    requires forall k :: k in extra ==> PartsAtKey([Key(key), Key(k)], q)
    requires extra != map[] && Get(Map(m), q).Some?
    ensures Get(Map(m[key := Map(MapUnder(m, key) + extra)]), q) == Get(Map(m), q)
  {
    var k :| k in extra;
    PartsBelow(Key(key), [Key(k)], q);
    if q[0] == Key(key) {
      var r := q[1..];
      forall j | j in extra ensures PartsAtKey([Key(j)], r) { PartsBelow(Key(key), [Key(j)], q); }
      assert PartsAtKey([Key(k)], r) && r[0].Key?;
      var name := r[0].k;
      PartsBelow(Key(name), [], r);
      assert [Key(name)] + [] == [Key(name)] && name !in extra;
      assert m[key].Map? && m[key].m == MapUnder(m, key);
      var merged := MapUnder(m, key) + extra;
      assert merged[name] == m[key].m[name];
      assert Get(Map(merged), r) == Get(m[key].m[name], r[1..]);
    }
  }

  lemma LabelledFrame(meta: Doc, l: Labels, q: Path)
    requires Get(Map(meta), q).Some?
    requires forall k :: IsLabelKey(k) ==> PartsAtKey([Key("labels"), Key(k)], q)
    ensures Get(Map(Labelled(meta, l)), q) == Get(Map(meta), q)
  {
    assert MANAGED in LabelEntries(l);
    MergeFrame(meta, "labels", LabelEntries(l), q);
  }

  lemma AnnotatedFrame(meta: Doc, l: Labels, q: Path)
    requires Get(Map(meta), q).Some?
    requires forall k :: IsNoteKey(k) ==> PartsAtKey([Key("annotations"), Key(k)], q)
    ensures Get(Map(Annotated(meta, l)), q) == Get(Map(meta), q)
  {
    assert RELEASE_ID in NoteEntries(l);
    MergeFrame(meta, "annotations", NoteEntries(l), q);
  }

  lemma PodFrame(spec: Doc, l: Labels, q: Path)
    requires Get(Map(spec), q).Some? && OutsidePod([Key("template")], q)
    ensures Get(Map(PodLabelled(spec, l)), q) == Get(Map(spec), q)
  {
    forall k | IsLabelKey(k)
      ensures PartsAtKey([Key("template")] + ([Key("metadata")] + [Key("labels"), Key(k)]), q)
    {
      assert LabelPath([Key("template")], k) == [Key("template")] + ([Key("metadata")] + [Key("labels"), Key(k)]);
    }
    PartsBelow(Key("template"), [Key("metadata")] + [Key("labels"), Key(MANAGED)], q);
    if HasMap(spec, "template") && q[0] == Key("template") {
      var r := q[1..];
      forall k | IsLabelKey(k) ensures PartsAtKey([Key("metadata")] + [Key("labels"), Key(k)], r) {
        PartsBelow(Key("template"), [Key("metadata")] + [Key("labels"), Key(k)], q);
      }
      MetadataFrame(spec["template"].m, l, r);
    }
  }

  lemma MetadataFrame(tmpl: Doc, l: Labels, r: Path)
    requires Get(Map(tmpl), r).Some?
    requires forall k :: IsLabelKey(k) ==> PartsAtKey([Key("metadata")] + [Key("labels"), Key(k)], r)
    ensures Get(Map(tmpl["metadata" := Map(Labelled(MapUnder(tmpl, "metadata"), l))]), r) == Get(Map(tmpl), r)
  {
    PartsBelow(Key("metadata"), [Key("labels"), Key(MANAGED)], r);
    if r[0] == Key("metadata") {
      forall k | IsLabelKey(k) ensures PartsAtKey([Key("labels"), Key(k)], r[1..]) {
        PartsBelow(Key("metadata"), [Key("labels"), Key(k)], r);
      }
      PartsBelow(Key("labels"), [Key(MANAGED)], r[1..]);
      LabelledFrame(MapUnder(tmpl, "metadata"), l, r[1..]);
    }
  }

  lemma JobFrame(spec: Doc, l: Labels, q: Path)
    requires Get(Map(spec), q).Some? && OutsidePod(CRON_POD[1..], q)
    ensures Get(Map(JobLabelled(spec, l)), q) == Get(Map(spec), q)
  {
    var inner := [Key("spec"), Key("template")];
    forall k | IsLabelKey(k)
      ensures PartsAtKey([Key("jobTemplate")] + ([Key("spec")] + LabelPath([Key("template")], k)), q)
    {
      assert LabelPath(CRON_POD[1..], k) == [Key("jobTemplate")] + ([Key("spec")] + LabelPath([Key("template")], k));
    }
    PartsBelow(Key("jobTemplate"), [Key("spec")] + LabelPath([Key("template")], MANAGED), q);
    if HasMap(spec, "jobTemplate") && HasMap(spec["jobTemplate"].m, "spec") && q[0] == Key("jobTemplate") {
      var r := q[1..];
      forall k | IsLabelKey(k)
        ensures PartsAtKey([Key("spec")] + LabelPath([Key("template")], k), r)
        ensures r[0] == Key("spec") ==> PartsAtKey(LabelPath([Key("template")], k), r[1..])
      {
        PartsBelow(Key("jobTemplate"), [Key("spec")] + LabelPath([Key("template")], k), q);
        PartsBelow(Key("spec"), LabelPath([Key("template")], k), r);
      }
      assert PartsAtKey([Key("spec")] + LabelPath([Key("template")], MANAGED), r);
      if r[0] == Key("spec") {
        PodFrame(spec["jobTemplate"].m["spec"].m, l, r[1..]);
      }
    }
  }

  lemma TopFrame(d: Doc, l: Labels, q: Path)
    requires Get(Map(d), q).Some? && OutsideLabels(q) && OutsideNotes(q)
    ensures
      var named := d["metadata" := Map(Annotated(Labelled(MapUnder(d, "metadata"), l), l))];
      Get(Map(named), q) == Get(Map(d), q)
  {
    PartsBelow(Key("metadata"), [Key("labels"), Key(MANAGED)], q);
    if q[0] == Key("metadata") {
      var r := q[1..];
      forall k | IsLabelKey(k) ensures PartsAtKey([Key("labels"), Key(k)], r) {
        PartsBelow(Key("metadata"), [Key("labels"), Key(k)], q);
      }
      forall k | IsNoteKey(k) ensures PartsAtKey([Key("annotations"), Key(k)], r) {
        PartsBelow(Key("metadata"), [Key("annotations"), Key(k)], q);
      }
      assert PartsAtKey([Key("labels"), Key(MANAGED)], r);
      LabelledFrame(MapUnder(d, "metadata"), l, r);
      AnnotatedFrame(Labelled(MapUnder(d, "metadata"), l), l, r);
    }
  }

  lemma BelowSpec(home: Path, q: Path)
    requires OutsidePod([Key("spec")] + home, q)
    ensures q != [] && (q[0] == Key("spec") ==> OutsidePod(home, q[1..]))
  {
    forall k | IsLabelKey(k)
      ensures q != [] && (q[0] == Key("spec") ==> PartsAtKey(LabelPath(home, k), q[1..]))
    {
      assert LabelPath([Key("spec")] + home, k) == [Key("spec")] + LabelPath(home, k);
      PartsBelow(Key("spec"), LabelPath(home, k), q);
    }
    assert IsLabelKey(MANAGED);
  }

  /** Whatever the document held outside the stamped places, it still holds. */
  lemma StampFrame(d: Doc, l: Labels, q: Path)
    requires OutsideStamps(q) && Get(Map(d), q).Some?
    ensures Get(Map(Stamp(d, l)), q) == Get(Map(d), q)
  {
    TopFrame(d, l, q);
    assert POD == [Key("spec")] + [Key("template")];
    assert CRON_POD == [Key("spec")] + CRON_POD[1..];
    BelowSpec([Key("template")], q);
    BelowSpec(CRON_POD[1..], q);
    var named := d["metadata" := Map(Annotated(Labelled(MapUnder(d, "metadata"), l), l))];
    if HasMap(named, "spec") && q[0] == Key("spec") {
      var spec := named["spec"].m;
      PodFrame(spec, l, q[1..]);
      JobFrame(PodLabelled(spec, l), l, q[1..]);
    }
  }
}
