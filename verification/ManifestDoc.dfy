/** renderManifest: pointing every build of a decoded manifest at one generation. */
module ManifestDoc {
  import opened Text
  import opened Releases

  /** A decoded JSON value. */
  datatype Json =
    | Null
    | Bool(b: bool)
    | Num(text: string)
    | Str(s: string)
    | Arr(items: seq<Json>)
    | Obj(fields: map<string, Json>)

  datatype RenderError =
    | Undecodable
    | NoBuilds
    | NotAnObject(build: nat)
    | NoOta(build: nat)
    | NoPath(build: nat)
    | AbsoluteUrl(build: nat)
    | NotCarried(build: nat, name: string)

  /** strings.Contains(s, "://"). */
  predicate HasScheme(s: string) {
    exists i | 0 <= i <= |s| - 3 :: s[i] == ':' && s[i + 1] == '/' && s[i + 2] == '/'
  }

  function StripSlashes(s: string): string {
    if s != "" && s[|s| - 1] == '/' then StripSlashes(s[..|s| - 1]) else s
  }

  function LastSegment(s: string): string {
    if s == "" || s[|s| - 1] == '/' then "" else LastSegment(s[..|s| - 1]) + [s[|s| - 1]]
  }

  /** path.Base. */
  function Base(p: string): string {
    if p == "" then "." else
    var name := LastSegment(StripSlashes(p));
    if name == "" then "/" else name
  }

  function Url(dir: string, name: string): string { "/firmware/" + dir + "/" + name }

  /** The file one build points at, or why the build cannot be served. */
  function BuildTarget(build: Json, i: nat, files: seq<string>): Result<string, RenderError> {
    if !build.Obj? then Err(NotAnObject(i))
    else if "ota" !in build.fields || !build.fields["ota"].Obj? then Err(NoOta(i))
    else
      var ota := build.fields["ota"].fields;
      if "path" !in ota || !ota["path"].Str? || ota["path"].s == "" then Err(NoPath(i))
      else if HasScheme(ota["path"].s) then Err(AbsoluteUrl(i))
      else if Base(ota["path"].s) !in files then Err(NotCarried(i, Base(ota["path"].s)))
      else Ok(Base(ota["path"].s))
  }

  /** The list of builds of a decoded document. */
  function Builds(doc: Option<Json>): Result<seq<Json>, RenderError> {
    if doc.None? || !(doc.value.Obj? || doc.value.Null?) then Err(Undecodable)
    else if doc.value.Null? || "builds" !in doc.value.fields then Err(NoBuilds)
    else
      var b := doc.value.fields["builds"];
      if !b.Arr? || b.items == [] then Err(NoBuilds) else Ok(b.items)
  }

  ghost predicate Renderable(doc: Option<Json>, files: seq<string>) {
    && Builds(doc).Ok?
    && forall i | 0 <= i < |Builds(doc).value| :: BuildTarget(Builds(doc).value[i], i, files).Ok?
  }

  ghost predicate SameExcept(a: map<string, Json>, b: map<string, Json>, key: string) {
    a - {key} == b - {key}
  }

  /** `after` is `before` with one string replaced: the ota.path, now `path`. */
  ghost predicate BuildRedirected(before: Json, after: Json, path: string) {
    && before.Obj? && after.Obj?
    && SameExcept(before.fields, after.fields, "ota")
    && "ota" in before.fields && "ota" in after.fields
    && before.fields["ota"].Obj? && after.fields["ota"].Obj?
    && SameExcept(before.fields["ota"].fields, after.fields["ota"].fields, "path")
    && "path" in after.fields["ota"].fields && after.fields["ota"].fields["path"] == Str(path)
  }

  /** `after` is `before` with every build redirected into generation `dir` and
      nothing else changed anywhere in the tree. */
  ghost predicate Redirected(before: Json, after: Json, dir: string, files: seq<string>)
    requires Renderable(Some(before), files)
  {
    var builds := Builds(Some(before)).value;
    && after.Obj?
    && SameExcept(before.fields, after.fields, "builds")
    && "builds" in after.fields && after.fields["builds"].Arr?
    && |after.fields["builds"].items| == |builds|
    && forall i | 0 <= i < |builds| ::
         BuildRedirected(builds[i], after.fields["builds"].items[i], Url(dir, BuildTarget(builds[i], i, files).value))
  }

  /** Rewrites the decoded tree build by build; one bad build yields no document. */
  method RenderManifest(doc: Option<Json>, files: seq<string>, dir: string) returns (r: Result<Json, RenderError>)
    ensures r.Ok? <==> Renderable(doc, files)
    ensures r.Ok? ==> Redirected(doc.value, r.value, dir, files)
    ensures r.Err? && Builds(doc).Err? ==> r.error == Builds(doc).error
    ensures r.Err? && Builds(doc).Ok? ==>
              exists i | 0 <= i < |Builds(doc).value| ::
                && BuildTarget(Builds(doc).value[i], i, files) == Err(r.error)
                && forall j | 0 <= j < i :: BuildTarget(Builds(doc).value[j], j, files).Ok?
  {
    if doc.None? || !(doc.value.Obj? || doc.value.Null?) {
      return Err(Undecodable);
    }
    if doc.value.Null? || "builds" !in doc.value.fields
       || !doc.value.fields["builds"].Arr? || doc.value.fields["builds"].items == [] {
      return Err(NoBuilds);
    }
    var builds := doc.value.fields["builds"].items;
    var redirected := builds;
    for i := 0 to |builds|
      invariant |redirected| == |builds|
      invariant forall j | 0 <= j < i :: BuildTarget(builds[j], j, files).Ok?
      invariant forall j | 0 <= j < i ::
                  BuildRedirected(builds[j], redirected[j], Url(dir, BuildTarget(builds[j], j, files).value))
      invariant forall j | i <= j < |builds| :: redirected[j] == builds[j]
    {
      var build := redirected[i];
      if !build.Obj? {
        return Err(NotAnObject(i));
      }
      if "ota" !in build.fields || !build.fields["ota"].Obj? {
        return Err(NoOta(i));
      }
      var ota := build.fields["ota"].fields;
      if "path" !in ota || !ota["path"].Str? || ota["path"].s == "" {
        return Err(NoPath(i));
      }
      var p := ota["path"].s;
      if HasScheme(p) {
        return Err(AbsoluteUrl(i));
      }
      var name := Base(p);
      if name !in files {
        return Err(NotCarried(i, name));
      }
      ota := ota["path" := Str(Url(dir, name))];
      redirected := redirected[i := Obj(build.fields["ota" := Obj(ota)])];
    }
    return Ok(Obj(doc.value.fields["builds" := Arr(redirected)]));
  }

  // ----- Which documents can be rendered -----

  predicate OnlySlashes(s: string) { forall c | c in s :: c == '/' }

  /** The path ends in the segment `name`, but for trailing slashes. */
  ghost predicate EndsIn(p: string, name: string) {
    exists head, tail ::
      && p == head + name + tail && OnlySlashes(tail)
      && (head == "" || head[|head| - 1] == '/') && name != "" && '/' !in name
  }

  lemma {:induction false} StripSlashesSplits(s: string) returns (tail: string)
    ensures s == StripSlashes(s) + tail && OnlySlashes(tail)
    ensures StripSlashes(s) == "" || StripSlashes(s)[|StripSlashes(s)| - 1] != '/'
  {
    tail := "";
    if s != "" && s[|s| - 1] == '/' {
      tail := StripSlashesSplits(s[..|s| - 1]);
      tail := tail + "/";
    }
  }

  lemma {:induction false} LastSegmentSplits(s: string) returns (head: string)
    ensures s == head + LastSegment(s) && '/' !in LastSegment(s)
    ensures head == "" || head[|head| - 1] == '/'
  {
    if s == "" || s[|s| - 1] == '/' {
      head := s;
    } else {
      head := LastSegmentSplits(s[..|s| - 1]);
      assert s == s[..|s| - 1] + [s[|s| - 1]];
    }
  }

  lemma {:induction false} StripSlashesStops(s: string, tail: string)
    requires OnlySlashes(tail) && s != "" && s[|s| - 1] != '/'
    ensures StripSlashes(s + tail) == s
  {
    if tail == "" {
      assert s + tail == s;
    } else {
      var n := |tail| - 1;
      assert tail[n] in tail && (s + tail)[..|s + tail| - 1] == s + tail[..n];
      assert forall c | c in tail[..n] :: c in tail;
      StripSlashesStops(s, tail[..n]);
    }
  }

  lemma {:induction false} LastSegmentAfter(head: string, name: string)
    requires '/' !in name && (head == "" || head[|head| - 1] == '/')
    ensures LastSegment(head + name) == name
  {
    if name == "" {
      assert head + name == head;
    } else {
      var n := |name| - 1;
      assert name[n] in name && (head + name)[..|head + name| - 1] == head + name[..n];
      LastSegmentAfter(head, name[..n]);
      assert name == name[..n] + [name[n]];
    }
  }

  /** path.Base of a non-empty path is its last segment; of slashes alone it is one slash. */
  lemma BaseIff(p: string, name: string)
    requires p != ""
    ensures EndsIn(p, name) <==> Base(p) == name && name != "/"
    ensures Base(p) == "/" <==> OnlySlashes(p)
  {
    var stripped := StripSlashes(p);
    var tail := StripSlashesSplits(p);
    var head := LastSegmentSplits(stripped);
    assert p == head + LastSegment(stripped) + tail;
    if stripped != "" {
      assert p[|stripped| - 1] == stripped[|stripped| - 1] != '/' && p[|stripped| - 1] in p;
    }
    if EndsIn(p, name) {
      var h, t :| && p == h + name + t && OnlySlashes(t)
                  && (h == "" || h[|h| - 1] == '/') && name != "" && '/' !in name;
      assert name[|name| - 1] in name;
      assert (h + name)[|h + name| - 1] == name[|name| - 1];
      StripSlashesStops(h + name, t);
      LastSegmentAfter(h, name);
    }
  }

  /** A document can be rendered if and only if it is an object whose "builds" is a list
      that is not empty, of objects with an object "ota" whose "path" is text that is not
      empty, holds no "://" and ends in the name of a carried file. */
  lemma RenderableIff(doc: Option<Json>, files: seq<string>)
    requires forall f | f in files :: ValidAssetName(f)
    ensures Renderable(doc, files) <==>
              && doc.Some? && doc.value.Obj? && "builds" in doc.value.fields
              && doc.value.fields["builds"].Arr? && doc.value.fields["builds"].items != []
              && forall i | 0 <= i < |doc.value.fields["builds"].items| ::
                   PointsAtCarried(doc.value.fields["builds"].items[i], files)
  {
    if Builds(doc).Ok? {
      forall i | 0 <= i < |Builds(doc).value|
        ensures BuildTarget(Builds(doc).value[i], i, files).Ok? <==> PointsAtCarried(Builds(doc).value[i], files)
      {
        BuildIsServableIff(Builds(doc).value[i], i, files);
      }
    }
  }

  ghost predicate PointsAtCarried(build: Json, files: seq<string>) {
    && build.Obj? && "ota" in build.fields && build.fields["ota"].Obj?
    && var ota := build.fields["ota"].fields;
       && "path" in ota && ota["path"].Str? && ota["path"].s != ""
       && !Contains(ota["path"].s, "://")
       && exists name :: name in files && EndsIn(ota["path"].s, name)
  }

  lemma BuildIsServableIff(build: Json, i: nat, files: seq<string>)
    requires forall f | f in files :: ValidAssetName(f)
    ensures BuildTarget(build, i, files).Ok? <==> PointsAtCarried(build, files)
    ensures BuildTarget(build, i, files).Ok? ==>
              EndsIn(build.fields["ota"].fields["path"].s, BuildTarget(build, i, files).value)
  {
    if build.Obj? && "ota" in build.fields && build.fields["ota"].Obj? && "path" in build.fields["ota"].fields
       && build.fields["ota"].fields["path"].Str? && build.fields["ota"].fields["path"].s != "" {
      var p := build.fields["ota"].fields["path"].s;
      SchemeIff(p);
      BaseIff(p, Base(p));
      if name :| name in files && EndsIn(p, name) {
        BaseIff(p, name);
      }
    }
  }

  ghost predicate Contains(s: string, word: string) { exists head, tail :: s == head + word + tail }

  lemma SchemeIff(p: string)
    ensures HasScheme(p) <==> Contains(p, "://")
  {
    if HasScheme(p) {
      var i :| 0 <= i <= |p| - 3 && p[i] == ':' && p[i + 1] == '/' && p[i + 2] == '/';
      assert p == p[..i] + "://" + p[i + 3..];
    }
    if Contains(p, "://") {
      var head, tail :| p == head + "://" + tail;
      var i := |head|;
      assert p[i] == ':' && p[i + 1] == '/' && p[i + 2] == '/';
    }
  }

  // ----- The published paths -----

  lemma {:induction false} LastSegmentOf(prefix: string, name: string)
    requires '/' !in name
    ensures LastSegment(prefix + "/" + name) == name
  {
    var s := prefix + "/" + name;
    if name != "" {
      var last := |name| - 1;
      assert name[last] in name;
      assert s[..|s| - 1] == prefix + "/" + name[..last];
      LastSegmentOf(prefix, name[..last]);
      assert name == name[..last] + [name[last]];
    }
  }

  /** A published path names its file again, and never looks like an absolute URL. */
  lemma UrlNamesItsFile(dir: string, name: string)
    requires ValidTag(dir) && ValidAssetName(name)
    ensures Base(Url(dir, name)) == name
    ensures !HasScheme(Url(dir, name))
  {
    var u := Url(dir, name);
    assert name[|name| - 1] in name;
    assert StripSlashes(u) == u;
    LastSegmentOf("/firmware/" + dir, name);
    forall i | 0 <= i <= |u| - 3 ensures !(u[i] == ':' && u[i + 1] == '/' && u[i + 2] == '/') {
      var d := |"/firmware/"|;
      if d <= i + 2 < d + |dir| {
        assert u[i + 2] == dir[i + 2 - d] && dir[i + 2 - d] in dir;
      } else if i + 2 == d + |dir| {
        assert u[i + 1] == dir[|dir| - 1] && dir[|dir| - 1] in dir;
      } else if d + |dir| < i + 2 {
        assert u[i + 2] == name[i + 2 - d - |dir| - 1] && name[i + 2 - d - |dir| - 1] in name;
      }
    }
  }

  /** Where a build of a rendered manifest points. */
  lemma RedirectedTarget(before: Json, after: Json, dir: string, files: seq<string>, i: nat)
    requires Renderable(Some(before), files) && Redirected(before, after, dir, files)
    requires ValidTag(dir) && (forall f | f in files :: ValidAssetName(f))
    requires i < |Builds(Some(before)).value|
    ensures var name := BuildTarget(Builds(Some(before)).value[i], i, files).value;
            && name in files
            && BuildTarget(after.fields["builds"].items[i], i, files) == Ok(name)
            && EndsIn(Builds(Some(before)).value[i].fields["ota"].fields["path"].s, name)
            && after.fields["builds"].items[i].fields["ota"].fields["path"] == Str("/firmware/" + dir + "/" + name)
  {
    UrlNamesItsFile(dir, BuildTarget(Builds(Some(before)).value[i], i, files).value);
    BuildIsServableIff(Builds(Some(before)).value[i], i, files);
  }

  lemma SamePiece(a: map<string, Json>, b: map<string, Json>, key: string)
    requires SameExcept(a, b, key) && key in a && key in b && a[key] == b[key]
    ensures a == b
  {
    forall k | k in a ensures k in b && a[k] == b[k] {
      assert k != key ==> k in a - {key} && k in b - {key} && (a - {key})[k] == (b - {key})[k];
    }
    forall k | k in b ensures k in a {
      assert k != key ==> k in b - {key} && k in a - {key};
    }
  }

  lemma SameBuild(a: Json, b: Json, path: string)
    requires BuildRedirected(a, b, path) && a.fields["ota"].fields.Keys >= {"path"}
    requires a.fields["ota"].fields["path"] == Str(path)
    ensures a == b
  {
    SamePiece(a.fields["ota"].fields, b.fields["ota"].fields, "path");
    SamePiece(a.fields, b.fields, "ota");
  }

  /** Rendering a rendered manifest again succeeds and changes nothing. */
  lemma RenderIdempotent(before: Json, once: Json, twice: Json, dir: string, files: seq<string>)
    requires Renderable(Some(before), files) && Redirected(before, once, dir, files)
    requires ValidTag(dir) && (forall f | f in files :: ValidAssetName(f))
    ensures Renderable(Some(once), files)
    ensures Redirected(once, twice, dir, files) ==> twice == once
  {
    var builds := once.fields["builds"].items;
    forall i | 0 <= i < |builds| ensures BuildTarget(builds[i], i, files).Ok? {
      RedirectedTarget(before, once, dir, files, i);
    }
    if Redirected(once, twice, dir, files) {
      forall i | 0 <= i < |builds| ensures builds[i] == twice.fields["builds"].items[i] {
        RedirectedTarget(before, once, dir, files, i);
        SameBuild(builds[i], twice.fields["builds"].items[i], Url(dir, BuildTarget(builds[i], i, files).value));
      }
      assert builds == twice.fields["builds"].items;
      SamePiece(once.fields, twice.fields, "builds");
    }
  }
}
