/** The project state helpers of cofounder/api/server.js: how `load_project`
    flattens a stored project into the flat key map the web client reads
    (lines 447-488), how `resume_project` finds the first step still to do
    (lines 490-534), and how `streams.update` rewrites a dotted state key
    before it is sent out (lines 366-410). */
module ProjectState {
  import opened Values
  import opened Text

  // ---------------------------------------------------------------------------
  // The stored web app tree and its flat keys (server.js lines 447-488)
  // ---------------------------------------------------------------------------

  /** The versions of one generated artefact: `latest` or a timestamp to its value. */
  type Versions = map<string, Value>

  /** `state.webapp[type][category][id][version]`, e.g. `react` / `views` / `GV_Home` / `latest`. */
  type Webapp = map<string, map<string, map<string, Versions>>>

  /** What the project loader hands back: the `keymap` of flat keys, the
      `webapp` tree of the state (either may be missing), and the whole
      `state` object, which `load_project` returns as it is. */
  datatype Snapshot = Snapshot(keymap: Option<Bag>, webapp: Option<Webapp>, state: Bag)

  /** A type / category / id triple naming one artefact of the tree. */
  datatype Path = Path(t: string, c: string, i: string)

  /** `webapp.${type}.${category}.${id}` */
  function FlatKey(p: Path): (k: string)
    ensures StartsWith(k, "webapp.")
  {
    "webapp." + p.t + "." + p.c + "." + p.i
  }

  predicate InWebapp(w: Webapp, p: Path) {
    p.t in w && p.c in w[p.t] && p.i in w[p.t][p.c]
  }

  function Leaf(w: Webapp, p: Path): Versions
    requires InWebapp(w, p)
  {
    w[p.t][p.c][p.i]
  }

  /** Every artefact of the tree. */
  ghost function AllPaths(w: Webapp): set<Path> {
    set t, c, i | t in w && c in w[t] && i in w[t][c] :: Path(t, c, i)
  }

  ghost function FlatKeys(ps: set<Path>): set<string> {
    set p | p in ps :: FlatKey(p)
  }

  /** No other artefact of the tree flattens to the same key as `p`. Names
      with dots in them can collide: `a.b`/`c` and `a`/`b.c` both give
      `webapp.a.b.c.…`, and then the one enumerated last wins. */
  ghost predicate Unique(w: Webapp, p: Path) {
    forall q :: InWebapp(w, q) && FlatKey(q) == FlatKey(p) ==> q == p
  }

  /** The keymap entries `load_project` copies: those not under `webapp.`. */
  ghost function Kept(keymap: Bag): set<string> {
    set k | k in keymap && !StartsWith(k, "webapp.")
  }

  /** What `load_project` stores for a snapshot: the kept keymap entries as
      they are, and one entry per artefact holding a copy of its versions,
      and nothing else. Where names collide, the key holds the versions of
      one of the colliding artefacts. */
  ghost predicate Loaded(s: Snapshot, data: Bag) {
    var keymap := if s.keymap.Some? then s.keymap.value else map[];
    && data.Keys == Kept(keymap) + (if s.webapp.Some? then FlatKeys(AllPaths(s.webapp.value)) else {})
    && (forall k :: k in Kept(keymap) ==> data[k] == keymap[k])
    && (s.webapp.Some? ==> forall p :: InWebapp(s.webapp.value, p) && Unique(s.webapp.value, p) ==>
          data[FlatKey(p)] == Obj(Leaf(s.webapp.value, p)))
    && (s.webapp.Some? ==> forall k :: k in data && StartsWith(k, "webapp.") ==>
          exists p :: InWebapp(s.webapp.value, p) && FlatKey(p) == k && data[k] == Obj(Leaf(s.webapp.value, p)))
  }

  /** The loop invariant of the flattening: `flat` holds the `base` entries,
      none of them under `webapp.`, and one entry per artefact in `done`,
      whose writer `origin` records. */
  ghost predicate Flattened(w: Webapp, base: Bag, flat: Bag, origin: map<string, Path>, done: set<Path>) {
    && (forall p :: p in done ==> InWebapp(w, p) && FlatKey(p) in origin)
    && (forall k :: k in base ==> !StartsWith(k, "webapp.") && k in flat && flat[k] == base[k])
    && (forall k :: k in flat ==> k in base || k in origin)
    && (forall k :: k in origin ==>
          k in flat && origin[k] in done && FlatKey(origin[k]) == k && flat[k] == Obj(Leaf(w, origin[k])))
  }

  /** Writing one artefact keeps the invariant. */
  lemma Write(w: Webapp, base: Bag, flat: Bag, origin: map<string, Path>, done: set<Path>, p: Path)
    requires Flattened(w, base, flat, origin, done)
    requires InWebapp(w, p)
    ensures Flattened(w, base, flat[FlatKey(p) := Obj(Leaf(w, p))], origin[FlatKey(p) := p], done + {p})
  {
    var key := FlatKey(p);
    var flat', origin', done' := flat[key := Obj(Leaf(w, p))], origin[key := p], done + {p};
    assert key !in base;
    forall q | q in done' ensures InWebapp(w, q) && FlatKey(q) in origin' {
      if q != p {
        assert q in done;
      }
    }
    forall k | k in base ensures k in flat' && flat'[k] == base[k] {
      assert k != key;
    }
    forall k | k in flat' ensures k in base || k in origin' {
    }
    forall k | k in origin' ensures
      k in flat' && origin'[k] in done' && FlatKey(origin'[k]) == k && flat'[k] == Obj(Leaf(w, origin'[k]))
    {
      if k != key {
        assert k in origin;
      }
    }
  }

  /** The id loop's progress: the artefacts of one category whose id is in `ids`. */
  ghost function IdPaths(t: string, c: string, ids: set<string>): set<Path> {
    set i | i in ids :: Path(t, c, i)
  }

  /** The category loop's progress. */
  ghost function CategoryPaths(w: Webapp, t: string, cs: set<string>): set<Path>
    requires t in w
  {
    set c, i | c in cs && c in w[t] && i in w[t][c] :: Path(t, c, i)
  }

  /** The type loop's progress. */
  ghost function TypePaths(w: Webapp, ts: set<string>): set<Path> {
    set t, c, i | t in ts && t in w && c in w[t] && i in w[t][c] :: Path(t, c, i)
  }

  /** The version loop: a copy of the versions, one entry at a time. */
  method CopyVersions(v: Versions) returns (r: Versions)
    ensures r == v
  {
    r := map[];
    var pending := v.Keys;
    while pending != {}
      invariant pending <= v.Keys
      invariant r.Keys == v.Keys - pending
      invariant forall k :: k in r ==> r[k] == v[k]
      decreases pending
    {
      var k :| k in pending;
      r := r[k := v[k]];
      pending := pending - {k};
    }
  }

  /** The id loop over one category: every id gets a fresh entry holding a
      copy of its versions. */
  method FlattenCategory(w: Webapp, t: string, c: string, ghost base: Bag, flat: Bag,
                         ghost origin: map<string, Path>, ghost done: set<Path>)
    returns (flat': Bag, ghost origin': map<string, Path>)
    requires t in w && c in w[t]
    requires Flattened(w, base, flat, origin, done)
    ensures Flattened(w, base, flat', origin', done + IdPaths(t, c, w[t][c].Keys))
  {
    flat', origin' := flat, origin;
    var pending := w[t][c].Keys;
    while pending != {}
      invariant pending <= w[t][c].Keys
      invariant Flattened(w, base, flat', origin', done + IdPaths(t, c, w[t][c].Keys - pending))
      decreases pending
    {
      var i :| i in pending;
      var p := Path(t, c, i);
      var versions := CopyVersions(w[t][c][i]);
      IdStep(w, base, flat', origin', done, t, c, pending, i);
      flat' := flat'[FlatKey(p) := Obj(versions)];
      origin' := origin'[FlatKey(p) := p];
      pending := pending - {i};
    }
  }

  /** One turn of the id loop keeps the invariant. */
  lemma IdStep(w: Webapp, base: Bag, flat: Bag, origin: map<string, Path>, done: set<Path>,
               t: string, c: string, pending: set<string>, i: string)
    requires t in w && c in w[t] && i in pending && pending <= w[t][c].Keys
    requires Flattened(w, base, flat, origin, done + IdPaths(t, c, w[t][c].Keys - pending))
    ensures Flattened(w, base, flat[FlatKey(Path(t, c, i)) := Obj(w[t][c][i])], origin[FlatKey(Path(t, c, i)) := Path(t, c, i)],
                      done + IdPaths(t, c, w[t][c].Keys - (pending - {i})))
  {
    var p := Path(t, c, i);
    var seen := done + IdPaths(t, c, w[t][c].Keys - pending);
    Write(w, base, flat, origin, seen, p);
    IdPathsGrow(t, c, w[t][c].Keys, pending, i);
    assert seen + {p} == done + IdPaths(t, c, w[t][c].Keys - (pending - {i}));
  }

  lemma IdPathsGrow(t: string, c: string, all: set<string>, pending: set<string>, i: string)
    requires i in pending && pending <= all
    ensures IdPaths(t, c, all - (pending - {i})) == IdPaths(t, c, all - pending) + {Path(t, c, i)}
  {
    assert all - (pending - {i}) == (all - pending) + {i};
  }

  lemma CategoryStep(w: Webapp, t: string, done: set<Path>, pending: set<string>, c: string)
    requires t in w && c in pending && pending <= w[t].Keys
    ensures done + CategoryPaths(w, t, w[t].Keys - (pending - {c}))
         == done + CategoryPaths(w, t, w[t].Keys - pending) + IdPaths(t, c, w[t][c].Keys)
  {
    assert w[t].Keys - (pending - {c}) == (w[t].Keys - pending) + {c};
  }

  /** The category loop over one type. */
  method FlattenType(w: Webapp, t: string, ghost base: Bag, flat: Bag,
                     ghost origin: map<string, Path>, ghost done: set<Path>)
    returns (flat': Bag, ghost origin': map<string, Path>)
    requires t in w
    requires Flattened(w, base, flat, origin, done)
    ensures Flattened(w, base, flat', origin', done + CategoryPaths(w, t, w[t].Keys))
  {
    flat', origin' := flat, origin;
    var pending := w[t].Keys;
    while pending != {}
      invariant pending <= w[t].Keys
      invariant Flattened(w, base, flat', origin', done + CategoryPaths(w, t, w[t].Keys - pending))
      decreases pending
    {
      var c :| c in pending;
      flat', origin' := FlattenCategory(w, t, c, base, flat', origin', done + CategoryPaths(w, t, w[t].Keys - pending));
      CategoryStep(w, t, done, pending, c);
      pending := pending - {c};
    }
  }

  lemma TypeStep(w: Webapp, pending: set<string>, t: string)
    requires t in pending && pending <= w.Keys
    ensures TypePaths(w, w.Keys - (pending - {t})) == TypePaths(w, w.Keys - pending) + CategoryPaths(w, t, w[t].Keys)
  {
    assert w.Keys - (pending - {t}) == (w.Keys - pending) + {t};
  }

  lemma AllTypes(w: Webapp)
    ensures TypePaths(w, w.Keys) == AllPaths(w)
  {
  }

  /** The type loop over the whole tree. */
  method FlattenWebapp(w: Webapp, ghost base: Bag, flat: Bag)
    returns (flat': Bag, ghost origin': map<string, Path>)
    requires Flattened(w, base, flat, map[], {})
    ensures Flattened(w, base, flat', origin', AllPaths(w))
  {
    flat', origin' := flat, map[];
    var pending := w.Keys;
    while pending != {}
      invariant pending <= w.Keys
      invariant Flattened(w, base, flat', origin', TypePaths(w, w.Keys - pending))
      decreases pending
    {
      var t :| t in pending;
      flat', origin' := FlattenType(w, t, base, flat', origin', TypePaths(w, w.Keys - pending));
      TypeStep(w, pending, t);
      pending := pending - {t};
    }
    AllTypes(w);
  }

  /** The keymap loop: every key not under `webapp.` is copied. */
  method CopyKept(keymap: Bag) returns (r: Bag)
    ensures r.Keys == Kept(keymap)
    ensures forall k :: k in r ==> r[k] == keymap[k]
  {
    r := map[];
    var pending := keymap.Keys;
    while pending != {}
      invariant pending <= keymap.Keys
      invariant r.Keys == Kept(keymap) - pending
      invariant forall k :: k in r ==> r[k] == keymap[k]
      decreases pending
    {
      var k :| k in pending;
      if !StartsWith(k, "webapp.") {
        r := r[k := keymap[k]];
      }
      pending := pending - {k};
    }
  }

  /** Once every artefact is done, the flat map has the kept keys and the flat keys. */
  lemma FlattenedKeys(w: Webapp, base: Bag, flat: Bag, origin: map<string, Path>)
    requires Flattened(w, base, flat, origin, AllPaths(w))
    ensures flat.Keys == base.Keys + FlatKeys(AllPaths(w))
  {
    forall k | k in flat ensures k in base.Keys + FlatKeys(AllPaths(w)) {
      if k !in base {
        assert origin[k] in AllPaths(w);
      }
    }
    forall k | k in FlatKeys(AllPaths(w)) ensures k in flat {
      var p :| p in AllPaths(w) && FlatKey(p) == k;
    }
  }

  /** From the final invariant to the stored entry. */
  lemma FlattenedLoaded(s: Snapshot, base: Bag, flat: Bag, origin: map<string, Path>)
    requires s.webapp.Some?
    requires base.Keys == Kept(if s.keymap.Some? then s.keymap.value else map[])
    requires forall k :: k in base ==> base[k] == (if s.keymap.Some? then s.keymap.value else map[])[k]
    requires Flattened(s.webapp.value, base, flat, origin, AllPaths(s.webapp.value))
    ensures Loaded(s, flat)
  {
    var w := s.webapp.value;
    FlattenedKeys(w, base, flat, origin);
    forall p | InWebapp(w, p) && Unique(w, p)
      ensures flat[FlatKey(p)] == Obj(Leaf(w, p))
    {
      assert p in AllPaths(w);
      assert FlatKey(p) in origin;
    }
    forall k | k in flat && StartsWith(k, "webapp.")
      ensures exists p :: InWebapp(w, p) && FlatKey(p) == k && flat[k] == Obj(Leaf(w, p))
    {
      assert k in origin;
      var p := origin[k];
      assert InWebapp(w, p) && FlatKey(p) == k && flat[k] == Obj(Leaf(w, p));
    }
  }

  /** The body of `load_project` after the loader returns: the flat map it
      stores in `projects[project]`. */
  method ProjectData(s: Snapshot) returns (data: Bag)
    ensures Loaded(s, data)
  {
    var keymap := if s.keymap.Some? then s.keymap.value else map[];
    data := CopyKept(keymap);
    if s.webapp.Some? {
      ghost var origin;
      ghost var base := data;
      data, origin := FlattenWebapp(s.webapp.value, base, data);
      FlattenedLoaded(s, base, data, origin);
    }
  }

  /** With no colliding names, what `load_project` stores is determined by the snapshot. */
  lemma LoadedDeterministic(s: Snapshot, d1: Bag, d2: Bag)
    requires Loaded(s, d1) && Loaded(s, d2)
    requires s.webapp.Some? ==> forall p :: InWebapp(s.webapp.value, p) ==> Unique(s.webapp.value, p)
    ensures d1 == d2
  {
    forall k | k in d1
      ensures d1[k] == d2[k]
    {
      if StartsWith(k, "webapp.") {
        var w := s.webapp.value;
        var p :| InWebapp(w, p) && FlatKey(p) == k && d1[k] == Obj(Leaf(w, p));
      }
    }
  }

  lemma FlatKeyShape(p: Path)
    ensures FlatKey(p) == "webapp" + "." + (p.t + "." + (p.c + "." + p.i))
  {
    assert "webapp." == "webapp" + ".";
  }

  /** A flat key of dot-free type and category names splits back into them. */
  lemma {:induction false} FlatKeySplit(p: Path)
    requires '.' !in p.t && '.' !in p.c
    ensures Split(FlatKey(p), '.') == ["webapp", p.t, p.c] + Split(p.i, '.')
  {
    var inner := p.c + "." + p.i;
    var mid := p.t + "." + inner;
    SplitPrefix(p.c, '.', p.i);
    SplitPrefix(p.t, '.', inner);
    SplitPrefix("webapp", '.', mid);
    FlatKeyShape(p);
    var rest := Split(p.i, '.');
    assert Split(mid, '.') == [p.t] + ([p.c] + rest);
    assert ["webapp"] + ([p.t] + ([p.c] + rest)) == ["webapp", p.t, p.c] + rest;
  }

  /** Trees whose types and categories carry no dots never collide. */
  predicate DotFree(w: Webapp) {
    forall t :: t in w ==> '.' !in t && forall c :: c in w[t] ==> '.' !in c
  }

  lemma DotFreeUnique(w: Webapp, p: Path)
    requires DotFree(w) && InWebapp(w, p)
    ensures Unique(w, p)
  {
    forall q | InWebapp(w, q) && FlatKey(q) == FlatKey(p)
      ensures q == p
    {
      FlatKeySplit(p);
      FlatKeySplit(q);
      var sp := Split(FlatKey(p), '.');
      assert sp[1] == p.t && sp[2] == p.c && sp[3..] == Split(p.i, '.');
      assert sp[1] == q.t && sp[2] == q.c && sp[3..] == Split(q.i, '.');
      JoinSplit(p.i, '.');
      JoinSplit(q.i, '.');
    }
  }

  /** The collision the flat key format allows. */
  lemma CollidingNames()
    ensures FlatKey(Path("a.b", "c", "d")) == FlatKey(Path("a", "b.c", "d"))
  {
  }

  // ---------------------------------------------------------------------------
  // The resume point (server.js lines 490-534)
  // ---------------------------------------------------------------------------

  /** `seq_projectv1_dag`: the levels of the project sequence as its entry's
      key prefixes; level 0, the project setup, has none. */
  const ProjectSteps: seq<seq<string>> := [
    [],
    ["pm.prd"],
    ["pm.frd"],
    ["pm.frd", "pm.uxsmd"],
    ["db.schemas", "uxsitemap.structure"],
    ["db.postgres"],
    ["pm.brd"],
    ["backend.specifications.openapi", "backend.specifications.asyncapi"],
    ["backend.server.main"],
    ["pm.uxdmd"],
    ["uxdatamap.structure"],
    ["uxdatamap.views"],
    ["webapp.react.store.redux"],
    ["webapp.react.root.app"],
    ["webapp.react.app.views"]
  ]

  /** Some state key starts with the entry. */
  predicate Covered(keys: set<string>, entry: string) {
    exists k :: k in keys && StartsWith(k, entry)
  }

  /** A step is passed over when it has no entries or all are covered. */
  predicate Passes(keys: set<string>, step: seq<string>) {
    |step| == 0 || forall e :: e in step ==> Covered(keys, e)
  }

  /** The resume point: the first step that does not pass, or the last
      index when all pass (-1 when there are no steps). */
  predicate IsResumeIndex(steps: seq<seq<string>>, keys: set<string>, index: int) {
    || (0 <= index < |steps| && !Passes(keys, steps[index]) &&
        forall j :: 0 <= j < index ==> Passes(keys, steps[j]))
    || (index == |steps| - 1 && forall j :: 0 <= j < |steps| ==> Passes(keys, steps[j]))
  }

  /** The loop of `resume_project`: bump the index, skip a passing step, stop at the first other one. */
  method ResumeIndex(steps: seq<seq<string>>, keys: set<string>) returns (index: int)
    ensures IsResumeIndex(steps, keys, index)
  {
    index := -1;
    var j := 0;
    while j < |steps|
      invariant 0 <= j <= |steps| && index == j - 1
      invariant forall m :: 0 <= m < j ==> Passes(keys, steps[m])
    {
      index := index + 1;
      var step := steps[j];
      if |step| > 0 {
        if forall e :: e in step ==> Covered(keys, e) {
          j := j + 1;
          continue;
        } else {
          break;
        }
      }
      j := j + 1;
    }
  }

  /** The resume point is unique. */
  lemma ResumeIndexUnique(steps: seq<seq<string>>, keys: set<string>, a: int, b: int)
    requires IsResumeIndex(steps, keys, a) && IsResumeIndex(steps, keys, b)
    ensures a == b
  {
  }

  /** Over the project table the resume point is at least 1 (the setup step
      always passes) and at most 14, the last index rather than the length. */
  lemma ResumeBounds(keys: set<string>, index: int)
    requires IsResumeIndex(ProjectSteps, keys, index)
    ensures 1 <= index <= 14
  {
    assert Passes(keys, ProjectSteps[0]);
  }

  /** A project with no state resumes at the first real step. */
  lemma EmptyProjectResumesAtOne(index: int)
    requires IsResumeIndex(ProjectSteps, {}, index)
    ensures index == 1
  {
    assert !Passes({}, ProjectSteps[1]) by {
      assert "pm.prd" in ProjectSteps[1];
    }
    assert Passes({}, ProjectSteps[0]);
  }

  /** A project whose every step is covered resumes at 14. */
  lemma FinishedProjectResumesAtLast(keys: set<string>, index: int)
    requires IsResumeIndex(ProjectSteps, keys, index)
    requires forall j, e :: 0 <= j < |ProjectSteps| && e in ProjectSteps[j] ==> e in keys
    ensures index == 14
  {
    forall j | 0 <= j < |ProjectSteps|
      ensures Passes(keys, ProjectSteps[j])
    {
      forall e | e in ProjectSteps[j]
        ensures Covered(keys, e)
      {
        assert StartsWith(e, e);
      }
    }
  }

  // ---------------------------------------------------------------------------
  // The key rewrite of `streams.update` (server.js lines 366-410)
  // ---------------------------------------------------------------------------

  /** What `streams.update` does with a key and its data: send them (possibly
      rewritten), throw, or — for a two- or three-segment `webapp.` key whose
      data is not null — something that depends on the shape and key order
      of the data. */
  datatype Update =
    | Emit(key: string, data: Value)
    | Throws(error: string)
    | DependsOnShape

  const NotAnObject := "TypeError: Cannot convert undefined or null to object"

  /** The object the cursor walk builds under the segments: `{s0: {s1: … data}}`. */
  function Nest(segs: seq<string>, data: Value): (r: Value)
    ensures |segs| > 0 ==> r == Obj(map[segs[0] := Nest(segs[1..], data)])
  {
    if |segs| == 0 then data else Obj(map[segs[0] := Nest(segs[1..], data)])
  }

  /** An array-like object: index keys "0", "1", … to the items. */
  function Indexed(items: seq<Value>): (r: Versions)
    ensures forall j :: 0 <= j < |items| ==> IntToString(j) in r
  {
    if |items| == 0 then map[]
    else Indexed(items[..|items| - 1])[IntToString(|items| - 1) := items[|items| - 1]]
  }

  function Chars(s: string): (r: seq<Value>)
    ensures |r| == |s| && forall j :: 0 <= j < |s| ==> r[j] == Str([s[j]])
  {
    seq(|s|, j requires 0 <= j < |s| => Str([s[j]]))
  }

  /** The entries `Object.keys(v)` enumerates, with their values: an
      object's fields, the characters of a string and the items of an array
      under their indices, nothing for a boolean or a number; null throws. */
  function Entries(v: Value): (r: Result<Versions>)
    ensures r.Err? <==> v == Null
    ensures v.Obj? ==> r == Ok(v.fields)
    ensures v.Bool? || v.Num? ==> r == Ok(map[])
  {
    match v
    case Null => Err(NotAnObject)
    case Bool(_) => Ok(map[])
    case Num(_) => Ok(map[])
    case Str(s) => Ok(Indexed(Chars(s)))
    case List(items) => Ok(Indexed(items))
    case Obj(fields) => Ok(fields)
  }

  /** The key and data `streams.update` sends for a subscribed project. A
      key mentioning `webapp.` is nested into a tree and flattened again as
      `load_project` does: the first four segments give the flat key, the
      rest become the versions. */
  function RewriteUpdate(key: string, data: Value): (r: Update)
    ensures !Contains(key, "webapp.") ==> r == Emit(key, data)
    ensures Contains(key, "webapp.") && Split(key, '.')[0] != "webapp" ==> r == Throws(NotAnObject)
    ensures Contains(key, "webapp.") && |Split(key, '.')| < 4 && data == Null ==> r == Throws(NotAnObject)
  {
    if !Contains(key, "webapp.") then Emit(key, data)
    else
      var segs := Split(key, '.');
      if segs[0] != "webapp" then Throws(NotAnObject)
      else if |segs| < 4 then (if data == Null then Throws(NotAnObject) else DependsOnShape)
      else
        var versions := if |segs| == 4 then Entries(data) else Ok(map[segs[4] := Nest(segs[5..], data)]);
        match versions
        case Err(e) => Throws(e)
        case Ok(v) => Emit(FlatKey(Path(segs[1], segs[2], segs[3])), Obj(v))
  }

  /** The cursor walk: the object with `data` under the path `segs`, built
      from the leaf up. */
  method NestSegments(segs: seq<string>, data: Value) returns (sub: Value)
    ensures sub == Nest(segs, data)
  {
    sub := data;
    var j := |segs|;
    while j > 0
      invariant 0 <= j <= |segs| && sub == Nest(segs[j..], data)
    {
      j := j - 1;
      assert segs[j..][1..] == segs[j + 1..];
      sub := Obj(map[segs[j] := sub]);
    }
  }

  /** Four steps down the nested object reach what lies under the fifth segment. */
  lemma NestLeaf(segs: seq<string>, data: Value)
    requires |segs| >= 4
    ensures var n0 := Nest(segs, data);
            && n0.Obj? && segs[0] in n0.fields
            && var n1 := n0.fields[segs[0]];
            && n1.Obj? && segs[1] in n1.fields
            && var n2 := n1.fields[segs[1]];
            && n2.Obj? && segs[2] in n2.fields
            && var n3 := n2.fields[segs[2]];
            && n3.Obj? && segs[3] in n3.fields
            && n3.fields[segs[3]] == Nest(segs[4..], data)
  {
    assert segs[1..][1..] == segs[2..] && segs[2..][1..] == segs[3..] && segs[3..][1..] == segs[4..];
  }

  /** The versions read back from the leaf: the data's own entries for a
      four-segment key, one entry under the fifth segment otherwise. */
  lemma LeafVersions(segs: seq<string>, data: Value)
    requires |segs| >= 4
    ensures Entries(Nest(segs[4..], data)) ==
            if |segs| == 4 then Entries(data) else Ok(map[segs[4] := Nest(segs[5..], data)])
  {
    if |segs| > 4 {
      assert segs[4..][1..] == segs[5..];
    }
  }

  /** The four `Object.keys` loops over the rebuilt object: each artefact
      `webapp.T.C.I` under it gets a fresh flat entry holding a copy of its
      versions, and the last flat key written, with its entry, is what goes
      out. The cursor walk leaves one key on each of the first four levels,
      so each outer loop turns once; `Object.keys` of a null artefact throws. */
  method ReadBack(ghost segs: seq<string>, ghost data: Value, sub: Value) returns (r: Update)
    requires |segs| >= 4 && segs[0] == "webapp" && sub == Nest(segs, data)
    ensures r == match Entries(Nest(segs[4..], data))
                 case Err(e) => Throws(e)
                 case Ok(v) => Emit(FlatKey(Path(segs[1], segs[2], segs[3])), Obj(v))
  {
    NestLeaf(segs, data);
    ghost var key := FlatKey(Path(segs[1], segs[2], segs[3]));
    ghost var leaf := Nest(segs[4..], data);
    var root := sub.fields["webapp"];
    var updates: map<string, Versions> := map[];
    var merged := "";
    var types := root.fields.Keys;
    assert types == {segs[1]};
    while types != {}
      invariant types == {} || types == {segs[1]}
      invariant types != {} ==> updates == map[]
      invariant types == {} ==> Entries(leaf).Ok? && merged == key && updates == map[key := Entries(leaf).value]
      decreases types
    {
      var t :| t in types;
      var byType := root.fields[t];
      var categories := byType.fields.Keys;
      assert categories == {segs[2]};
      while categories != {}
        invariant categories == {} || categories == {segs[2]}
        invariant categories != {} ==> updates == map[]
        invariant categories == {} ==> Entries(leaf).Ok? && merged == key && updates == map[key := Entries(leaf).value]
        decreases categories
      {
        var c :| c in categories;
        var byCategory := byType.fields[c];
        var ids := byCategory.fields.Keys;
        assert ids == {segs[3]};
        while ids != {}
          invariant ids == {} || ids == {segs[3]}
          invariant ids != {} ==> updates == map[]
          invariant ids == {} ==> Entries(leaf).Ok? && merged == key && updates == map[key := Entries(leaf).value]
          decreases ids
        {
          var i :| i in ids;
          merged := FlatKey(Path(t, c, i));
          var entries := Entries(byCategory.fields[i]);
          if entries.Err? {
            return Throws(entries.error);
          }
          var versions := CopyVersions(entries.value);
          updates := updates[merged := versions];
          ids := ids - {i};
        }
        categories := categories - {c};
      }
      types := types - {t};
    }
    r := Emit(merged, Obj(updates[merged]));
  }

  /** The rewrite as `streams.update` performs it: the cursor walk builds
      the nested object (here from the leaf up), then the `Object.keys`
      loops read it back into one flat entry. */
  method RewriteKey(key: string, data: Value) returns (r: Update)
    ensures r == RewriteUpdate(key, data)
  {
    if !Contains(key, "webapp.") {
      return Emit(key, data);
    }
    var segs := Split(key, '.');
    var sub := NestSegments(segs, data);
    if segs[0] != "webapp" {
      return Throws(NotAnObject);
    }
    if |segs| < 4 {
      // the object holds null at the second or third level, where `Object.keys` reads it
      return if data == Null then Throws(NotAnObject) else DependsOnShape;
    }
    r := ReadBack(segs, data, sub);
    LeafVersions(segs, data);
  }

  /** A five-segment key `webapp.T.C.I.V` is sent as the artefact's flat key
      with `{V: data}`: the same entry `load_project` stores for a tree
      whose artefact holds just that version. */
  lemma UpdateFiveSegments(t: string, c: string, i: string, v: string, data: Value)
    requires '.' !in t && '.' !in c && '.' !in i && '.' !in v
    ensures RewriteUpdate("webapp." + t + "." + c + "." + i + "." + v, data)
         == Emit(FlatKey(Path(t, c, i)), Obj(map[v := data]))
  {
    var key := "webapp." + t + "." + c + "." + i + "." + v;
    var segs := ["webapp", t, c, i, v];
    JoinFive(segs);
    assert "webapp." + t == "webapp" + "." + t;
    assert Join(segs, '.') == key;
    SplitJoin(segs, '.');
    UpdateDeepKey(key, data);
    assert segs[5..] == [] && Nest(segs[5..], data) == data;
  }

  lemma JoinFive(segs: seq<string>)
    requires |segs| == 5
    ensures Join(segs, '.') == segs[0] + "." + segs[1] + "." + segs[2] + "." + segs[3] + "." + segs[4]
  {
    assert Join(segs[4..], '.') == segs[4];
    assert Join(segs[3..], '.') == segs[3] + "." + segs[4];
    assert Join(segs[2..], '.') == segs[2] + "." + segs[3] + "." + segs[4];
    assert Join(segs[1..], '.') == segs[1] + "." + segs[2] + "." + segs[3] + "." + segs[4];
  }

  /** Any deeper key is sent under the flat key of its first four segments. */
  lemma UpdateDeepKey(key: string, data: Value)
    requires Split(key, '.')[0] == "webapp" && |Split(key, '.')| >= 5
    ensures var segs := Split(key, '.');
            RewriteUpdate(key, data) == Emit(FlatKey(Path(segs[1], segs[2], segs[3])),
                                             Obj(map[segs[4] := Nest(segs[5..], data)]))
  {
    var segs := Split(key, '.');
    JoinSplit(key, '.');
    assert key == "webapp" + "." + Join(segs[1..], '.');
    assert StartsWith(key, "webapp.");
  }
}
