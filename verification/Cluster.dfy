/** Objects in clusters: applying documents one by one, deleting by release label. */
module Cluster {
  import opened Values
  import opened UiMode
  import opened Targets
  import opened Stamps

  // --- Which resource a document is ---

  function SlashCount(s: string): nat {
    if s == "" then 0 else (if s[0] == '/' then 1 else 0) + SlashCount(s[1..])
  }

  /** The group of an `apiVersion`: nothing before a bare version; two slashes are no version. */
  function GroupOf(apiVersion: string): Option<string> {
    if SlashCount(apiVersion) > 1 then None
    else
      var n := IndexOf(apiVersion, '/');
      Some(if n < |apiVersion| then apiVersion[..n] else "")
  }

  /** The plural resource name of a supported kind, or the empty string. */
  function Plural(kind: string): string {
    if kind == "Deployment" then "deployments"
    else if kind == "StatefulSet" then "statefulsets"
    else if kind == "DaemonSet" then "daemonsets"
    else if kind == "Job" then "jobs"
    else if kind == "CronJob" then "cronjobs"
    else if kind == "Service" then "services"
    else if kind == "Ingress" then "ingresses"
    else if kind == "ConfigMap" then "configmaps"
    else if kind == "Secret" then "secrets"
    else if kind == "PersistentVolumeClaim" then "persistentvolumeclaims"
    else ""
  }

  datatype Resource = Resource(group: string, plural: string)

  /** What a release's clean-up goes through, in order. */
  const SUPPORTED: seq<Resource> := [
    Resource("apps", "deployments"), Resource("apps", "statefulsets"), Resource("apps", "daemonsets"),
    Resource("batch", "jobs"), Resource("batch", "cronjobs"),
    Resource("", "services"), Resource("networking.k8s.io", "ingresses"),
    Resource("", "configmaps"), Resource("", "secrets"), Resource("", "persistentvolumeclaims")]

  datatype ObjKey = ObjKey(cluster: string, resource: Resource, namespace: string, name: string)

  type Objects = map<ObjKey, Doc>

  function ApiResourceOf(d: Doc): Resource {
    match GroupOf(TextAt(d, "apiVersion"))
    case None => Resource("", "")
    case Some(g) => Resource(g, Plural(TextAt(d, "kind")))
  }

  /** The document with the release's namespace where it names none. */
  function InNamespace(d: Doc, namespace: string): Doc {
    if TextAt(MetaOf(d), "namespace") != "" then d
    else d["metadata" := Map(MetaOf(d)["namespace" := StrLeaf(namespace)])]
  }

  /** The object a document describes; none for unsupported kinds and nameless documents. */
  function TargetOf(d: Doc, cluster: string, namespace: string): Option<ObjKey> {
    var name := TextAt(MetaOf(d), "name");
    if ApiResourceOf(d).plural == "" || name == "" then None
    else
      var own := TextAt(MetaOf(d), "namespace");
      Some(ObjKey(cluster, ApiResourceOf(d), if own != "" then own else namespace, name))
  }

  /** The release an object belongs to. */
  function ReleaseOf(d: Doc): Option<string> {
    if HasMap(MetaOf(d), "labels") && IsText(MetaOf(d)["labels"].m, RELEASE)
    then Some(MetaOf(d)["labels"].m[RELEASE].s.s) else None
  }

  /** A stamped document stays with its release whatever namespace it lands in. */
  lemma StampedIsLabelled(d: Doc, l: Labels, namespace: string)
    ensures ReleaseOf(InNamespace(Stamp(d, l), namespace)) == Some(l.release)
  {
    var meta := MetaOf(Stamp(d, l));
    assert Stamp(d, l)["metadata"].Map?;
    assert meta == Annotated(Labelled(MapUnder(d, "metadata"), l), l);
    assert meta["labels"] == Map(MapUnder(MapUnder(d, "metadata"), "labels") + LabelEntries(l));
    assert meta["labels"].m[RELEASE] == StrLeaf(l.release);
    if TextAt(meta, "namespace") == "" {
      assert MetaOf(InNamespace(Stamp(d, l), namespace)) == meta["namespace" := StrLeaf(namespace)];
    }
  }

  // --- Applying ---

  /** How one call ends: answered, answered with an error after taking effect, or refused. */
  datatype Fate = Answered | Unanswered | Denied

  function ApplyOne(objs: Objects, cluster: string, namespace: string, d: Doc, fate: Fate): Objects {
    if TargetOf(d, cluster, namespace).None? || fate == Denied then objs
    else objs[TargetOf(d, cluster, namespace).value := InNamespace(d, namespace)]
  }

  predicate AppliedWell(cluster: string, namespace: string, d: Doc, fate: Fate) {
    TargetOf(d, cluster, namespace).Some? && fate == Answered
  }

  /** All documents in turn; errors do not stop it. */
  function ApplyDocs(objs: Objects, cluster: string, namespace: string, docs: seq<Doc>, fates: seq<Fate>): Objects
    requires |fates| == |docs|
    decreases |docs|
  {
    if docs == [] then objs
    else
      var n := |docs| - 1;
      ApplyOne(ApplyDocs(objs, cluster, namespace, docs[..n], fates[..n]), cluster, namespace, docs[n], fates[n])
  }

  ghost predicate AllApplied(cluster: string, namespace: string, docs: seq<Doc>, fates: seq<Fate>)
    requires |fates| == |docs|
  {
    forall i :: 0 <= i < |docs| ==> AppliedWell(cluster, namespace, docs[i], fates[i])
  }

  /** The objects some documents ask for; the last document naming an object decides. */
  function Desired(docs: seq<Doc>, cluster: string, namespace: string): Objects
    decreases |docs|
  {
    if docs == [] then map[]
    else
      var n := |docs| - 1;
      var before := Desired(docs[..n], cluster, namespace);
      var target := TargetOf(docs[n], cluster, namespace);
      if target.Some? then before[target.value := InNamespace(docs[n], namespace)] else before
  }

  /** A fully answered application leaves exactly what was asked for, and nothing else touched. */
  lemma {:induction false} AppliedIsDesired(objs: Objects, cluster: string, namespace: string, docs: seq<Doc>, fates: seq<Fate>)
    requires |fates| == |docs| && AllApplied(cluster, namespace, docs, fates)
    ensures ApplyDocs(objs, cluster, namespace, docs, fates) == objs + Desired(docs, cluster, namespace)
    decreases |docs|
  {
    if docs != [] {
      var n := |docs| - 1;
      var before := Desired(docs[..n], cluster, namespace);
      assert AllApplied(cluster, namespace, docs[..n], fates[..n]);
      AppliedIsDesired(objs, cluster, namespace, docs[..n], fates[..n]);
      assert AppliedWell(cluster, namespace, docs[n], fates[n]);
      OverlayOneMore(objs, before, TargetOf(docs[n], cluster, namespace).value, InNamespace(docs[n], namespace));
    } else {
      assert objs + map[] == objs;
    }
  }

  lemma OverlayOneMore(objs: Objects, more: Objects, k: ObjKey, d: Doc)
    ensures (objs + more)[k := d] == objs + more[k := d]
  {
  }

  /** However it ends, an application only ever puts objects that were asked for. */
  lemma {:induction false} AppliedWithin(objs: Objects, cluster: string, namespace: string, docs: seq<Doc>, fates: seq<Fate>, k: ObjKey)
    requires |fates| == |docs|
    ensures
      var after := ApplyDocs(objs, cluster, namespace, docs, fates);
      && (k in objs ==> k in after)
      && (k in after && !(k in objs && after[k] == objs[k]) ==>
            exists i :: 0 <= i < |docs| && TargetOf(docs[i], cluster, namespace) == Some(k) && after[k] == InNamespace(docs[i], namespace))
    decreases |docs|
  {
    if docs != [] {
      var n := |docs| - 1;
      AppliedWithin(objs, cluster, namespace, docs[..n], fates[..n], k);
      var mid := ApplyDocs(objs, cluster, namespace, docs[..n], fates[..n]);
      if k in mid && !(k in objs && mid[k] == objs[k]) {
        var i :| 0 <= i < n && TargetOf(docs[..n][i], cluster, namespace) == Some(k) && mid[k] == InNamespace(docs[..n][i], namespace);
        assert docs[..n][i] == docs[i];
      }
    }
  }

  lemma ApplyOneMore(objs: Objects, cluster: string, namespace: string, docs: seq<Doc>, fates: seq<Fate>, i: nat)
    requires |fates| == |docs| && i < |docs|
    ensures ApplyDocs(objs, cluster, namespace, docs[..i + 1], fates[..i + 1])
         == ApplyOne(ApplyDocs(objs, cluster, namespace, docs[..i], fates[..i]), cluster, namespace, docs[i], fates[i])
  {
    var more, moreFates := docs[..i + 1], fates[..i + 1];
    assert more[..i] == docs[..i] && moreFates[..i] == fates[..i] && more[i] == docs[i] && moreFates[i] == fates[i];
  }

  lemma AllOneMore(cluster: string, namespace: string, docs: seq<Doc>, fates: seq<Fate>, i: nat)
    requires |fates| == |docs| && i < |docs|
    ensures AllApplied(cluster, namespace, docs[..i + 1], fates[..i + 1]) <==>
            (AllApplied(cluster, namespace, docs[..i], fates[..i]) && AppliedWell(cluster, namespace, docs[i], fates[i]))
  {
    var more, moreFates := docs[..i + 1], fates[..i + 1];
    assert more[i] == docs[i] && moreFates[i] == fates[i];
    assert forall j :: 0 <= j < i ==> more[j] == docs[..i][j] && moreFates[j] == fates[..i][j];
  }

  // --- Deleting ---

  function Selected(objs: Objects, cluster: string, r: Resource, namespace: string, release: string): set<ObjKey> {
    set k | k in objs && k.cluster == cluster && k.resource == r && k.namespace == namespace && ReleaseOf(objs[k]) == Some(release)
  }

  /** One collection is deleted; a failing call may have removed some of it. */
  function DeleteOne(objs: Objects, cluster: string, r: Resource, namespace: string, release: string, ok: bool, lost: set<ObjKey>): Objects {
    objs - (if ok then Selected(objs, cluster, r, namespace, release) else Selected(objs, cluster, r, namespace, release) * lost)
  }

  /** Every labelled object of these kinds in the namespace. */
  ghost predicate NoneLeft(objs: Objects, cluster: string, resources: seq<Resource>, namespace: string, release: string) {
    forall k :: k in objs && k.cluster == cluster && k.namespace == namespace && k.resource in resources ==> ReleaseOf(objs[k]) != Some(release)
  }

  /** Everything outside the release's collections is kept. */
  ghost predicate OthersKept(objs: Objects, after: Objects, cluster: string, namespace: string, release: string) {
    && after.Keys <= objs.Keys && (forall k :: k in after ==> after[k] == objs[k])
    && forall k :: k in objs && !(k.cluster == cluster && k.namespace == namespace && k.resource in SUPPORTED && ReleaseOf(objs[k]) == Some(release)) ==>
         k in after
  }

  /** What the first `n` calls of a clean-up leave. */
  function DeleteFirst(objs: Objects, cluster: string, all: seq<Resource>, namespace: string, release: string, oks: seq<bool>, lost: set<ObjKey>, n: nat): Objects
    requires n <= |all| == |oks|
    decreases n
  {
    if n == 0 then objs
    else DeleteOne(DeleteFirst(objs, cluster, all, namespace, release, oks, lost, n - 1), cluster, all[n - 1], namespace, release, oks[n - 1], lost)
  }

  /** A clean-up only removes the release's objects of the given kinds, and all of them when
      every call is answered. */
  lemma {:induction false} DeletedFirst(objs: Objects, cluster: string, all: seq<Resource>, namespace: string, release: string, oks: seq<bool>, lost: set<ObjKey>, n: nat)
    requires n <= |all| == |oks| && forall r :: r in all ==> r in SUPPORTED
    ensures OthersKept(objs, DeleteFirst(objs, cluster, all, namespace, release, oks, lost, n), cluster, namespace, release)
    ensures (forall i :: 0 <= i < n ==> oks[i]) ==>
      NoneLeft(DeleteFirst(objs, cluster, all, namespace, release, oks, lost, n), cluster, all[..n], namespace, release)
    decreases n
  {
    if n > 0 {
      DeletedFirst(objs, cluster, all, namespace, release, oks, lost, n - 1);
      assert all[n - 1] in all;
      assert forall x :: x in all[..n] <==> x in all[..n - 1] || x == all[n - 1];
    }
  }

  class Api {
    var objects: Objects

    /** Applies every document. A cancelled context shows as refusals from some point on. */
    method ApplyAll(cluster: string, namespace: string, docs: seq<Doc>, fates: seq<Fate>) returns (ok: bool)
      requires |fates| == |docs|
      modifies this
      ensures objects == ApplyDocs(old(objects), cluster, namespace, docs, fates)
      ensures ok <==> AllApplied(cluster, namespace, docs, fates)
    {
      ok := true;
      for i := 0 to |docs|
        invariant objects == ApplyDocs(old(objects), cluster, namespace, docs[..i], fates[..i])
        invariant ok <==> AllApplied(cluster, namespace, docs[..i], fates[..i])
      {
        var d := docs[i];
        ApplyOneMore(old(objects), cluster, namespace, docs, fates, i);
        AllOneMore(cluster, namespace, docs, fates, i);
        var target := TargetOf(d, cluster, namespace);
        if target.None? {
          ok := false;
          continue;
        }
        if fates[i] != Denied { objects := objects[target.value := InNamespace(d, namespace)]; }
        if fates[i] != Answered { ok := false; }
      }
      assert docs[..|docs|] == docs && fates[..|docs|] == fates;
    }

    /** Deletes the release's objects of every supported kind. With all calls answered none is
        left; other objects are never touched. */
    method DeleteByRelease(cluster: string, namespace: string, release: string, oks: seq<bool>, lost: set<ObjKey>) returns (ok: bool)
      requires |oks| == |SUPPORTED|
      modifies this
      ensures objects == DeleteFirst(old(objects), cluster, SUPPORTED, namespace, release, oks, lost, |SUPPORTED|)
      ensures OthersKept(old(objects), objects, cluster, namespace, release)
      ensures ok <==> forall i :: 0 <= i < |oks| ==> oks[i]
      ensures ok ==> NoneLeft(objects, cluster, SUPPORTED, namespace, release)
    {
      ok := true;
      for i := 0 to |SUPPORTED|
        invariant objects == DeleteFirst(old(objects), cluster, SUPPORTED, namespace, release, oks, lost, i)
        invariant ok <==> forall j :: 0 <= j < i ==> oks[j]
      {
        objects := DeleteOne(objects, cluster, SUPPORTED[i], namespace, release, oks[i], lost);
        if !oks[i] { ok := false; }
      }
      assert SUPPORTED[..|SUPPORTED|] == SUPPORTED;
      DeletedFirst(old(objects), cluster, SUPPORTED, namespace, release, oks, lost, |SUPPORTED|);
    }
  }

  // --- Which documents become which objects ---

  /** Ten kinds are applied, each as its own resource. */
  lemma AppliedKinds(kind: string)
    ensures Plural(kind) != "" <==>
            kind in {"Deployment", "StatefulSet", "DaemonSet", "Job", "CronJob", "Service", "Ingress", "ConfigMap", "Secret", "PersistentVolumeClaim"}
    ensures forall other :: Plural(kind) != "" && Plural(other) == Plural(kind) ==> other == kind
  {
  }

  /** A version with a group in front belongs to the group, a bare one to the core. */
  lemma GroupBeforeSlash(group: string, version: string)
    requires '/' !in group && '/' !in version
    ensures GroupOf(group + "/" + version) == Some(group) && GroupOf(version) == Some("")
  {
    IndexOfStops(group, '/', version);
    assert group + ['/'] + version == group + "/" + version;
    assert (group + "/" + version)[..|group|] == group;
    NoSlash(group);
    NoSlash(version);
    SlashesAdd(group, "/" + version);
    assert ("/" + version)[1..] == version && group + ("/" + version) == group + "/" + version;
    NotFound(version);
  }

  lemma {:induction false} NoSlash(s: string)
    requires '/' !in s
    ensures SlashCount(s) == 0
    decreases |s|
  {
    if s != "" {
      assert s[0] in s && forall c :: c in s[1..] ==> c in s;
      NoSlash(s[1..]);
    }
  }

  lemma {:induction false} SlashesAdd(a: string, b: string)
    ensures SlashCount(a + b) == SlashCount(a) + SlashCount(b)
    decreases |a|
  {
    if a == "" {
      assert a + b == b;
    } else {
      assert (a + b)[0] == a[0] && (a + b)[1..] == a[1..] + b;
      SlashesAdd(a[1..], b);
    }
  }

  lemma {:induction false} NotFound(s: string)
    requires '/' !in s
    ensures IndexOf(s, '/') == |s|
    decreases |s|
  {
    if s != "" {
      assert s[0] in s && forall c :: c in s[1..] ==> c in s;
      NotFound(s[1..]);
    }
  }

  /** Under the groups Kubernetes serves them in, the ten kinds are what a clean-up goes through. */
  lemma CleanUpKnowsTheKinds(group: string, kind: string)
    requires (group == "apps" && kind in {"Deployment", "StatefulSet", "DaemonSet"}) || (group == "batch" && kind in {"Job", "CronJob"})
      || (group == "" && kind in {"Service", "ConfigMap", "Secret", "PersistentVolumeClaim"})
      || (group == "networking.k8s.io" && kind == "Ingress")
    ensures Resource(group, Plural(kind)) in SUPPORTED
  {
    var i :=
      if kind == "Deployment" then 0 else if kind == "StatefulSet" then 1 else if kind == "DaemonSet" then 2
      else if kind == "Job" then 3 else if kind == "CronJob" then 4 else if kind == "Service" then 5
      else if kind == "Ingress" then 6 else if kind == "ConfigMap" then 7 else if kind == "Secret" then 8 else 9;
    assert SUPPORTED[i] == Resource(group, Plural(kind));
  }

  /** The resource of a document, from its `apiVersion` and kind. */
  lemma ResourceNamed(d: Doc, group: string, version: string)
    requires '/' !in group && '/' !in version && TextAt(d, "apiVersion") == if group == "" then version else group + "/" + version
    ensures ApiResourceOf(d) == Resource(group, Plural(TextAt(d, "kind")))
  {
    GroupBeforeSlash(group, version);
  }

  /** An applied document stays as it is except for its namespace, and the object is found under
      what the document then says of itself. */
  lemma ObjectNamesItself(d: Doc, cluster: string, namespace: string, k: ObjKey)
    requires TargetOf(d, cluster, namespace) == Some(k)
    ensures
      var stored := InNamespace(d, namespace);
      && k.cluster == cluster && k.resource == ApiResourceOf(stored) && k.name == TextAt(MetaOf(stored), "name") == TextAt(MetaOf(d), "name")
      && (namespace != "" ==> k.namespace == TextAt(MetaOf(stored), "namespace"))
      && stored - {"metadata"} == d - {"metadata"} && MetaOf(stored) - {"namespace"} == MetaOf(d) - {"namespace"}
    ensures TextAt(MetaOf(d), "namespace") in {"", k.namespace}
    ensures TextAt(MetaOf(d), "namespace") == "" ==> k.namespace == namespace
  {
    var stored := InNamespace(d, namespace);
    if stored != d { assert MetaOf(stored) == MetaOf(d)["namespace" := StrLeaf(namespace)]; }
    assert stored - {"metadata"} == d - {"metadata"};
    assert TextAt(stored, "kind") == TextAt(d, "kind") && TextAt(stored, "apiVersion") == TextAt(d, "apiVersion");
  }

  /** An object belongs to the release that its release label names. */
  lemma ReleaseByLabel(d: Doc, release: string)
    ensures ReleaseOf(d) == Some(release) <==>
            Get(Map(d), [Key("metadata"), Key("labels"), Key("kuberport.io/release")]) == Some(Leaf(Str(release)))
  {
    var tail := [Key("labels")] + ([Key("kuberport.io/release")] + []);
    GetKey(d, "metadata", tail);
    if "metadata" in d && d["metadata"].Map? {
      var meta := d["metadata"].m;
      GetKey(meta, "labels", [Key("kuberport.io/release")] + []);
      if "labels" in meta && meta["labels"].Map? {
        GetKey(meta["labels"].m, "kuberport.io/release", []);
      }
    }
    assert [Key("metadata")] + tail == [Key("metadata"), Key("labels"), Key("kuberport.io/release")];
  }
}
