/** The incremental translation protocol: an English source tree, one tree per locale and one tree
    of source hashes, updated by repeated runs (translator.py and main.py under scripts/translations).
    The recursive passes are proved equal to path-wise definitions; convergence over repeated runs
    is proved from those. */
module LocaleSync {
  import opened Options
  import P = PendingTranslation

  /** A JSON value; `Fields` is an object with its keys in insertion order.  `Raw` is the text
      of a value that is neither a string nor a list nor an object. */
  datatype Json = Str(s: string) | List(items: seq<P.Elem>) | Raw(text: string) | Obj(fields: Fields)
  datatype Fields = Nil | Cons(key: string, value: Json, rest: Fields)

  type Path = seq<string>

  /** The hash of a source leaf's text, and whether that text is blank; both arbitrary. */
  datatype Codec = Codec(hash: Json -> string, blank: Json -> bool)

  function Lookup(f: Fields, k: string): Option<Json> {
    match f
    case Nil => None
    case Cons(key, value, rest) => if key == k then Some(value) else Lookup(rest, k)
  }

  function Keys(f: Fields): set<string> {
    match f
    case Nil => {}
    case Cons(key, _, rest) => {key} + Keys(rest)
  }

  /** A key occurs once in an object, as in any parsed JSON document. */
  predicate Distinct(f: Fields) {
    match f
    case Nil => true
    case Cons(key, value, rest) => key !in Keys(rest) && Distinct(rest) && (value.Obj? ==> Distinct(value.fields))
  }

  function Child(f: Fields, k: string): Fields {
    match Lookup(f, k)
    case Some(Obj(fields)) => fields
    case _ => Nil
  }

  function Leaf(f: Fields, k: string): Option<Json> {
    match Lookup(f, k)
    case Some(v) => if v.Obj? then None else Some(v)
    case None => None
  }

  function HashIn(leaf: Option<Json>): Option<string> {
    match leaf
    case Some(Str(h)) => Some(h)
    case _ => None
  }

  /** Missing leaves are translated; a leaf without a recorded hash is adopted as it is; otherwise
      a leaf is translated again when the English source changed. */
  predicate NeedsTranslation(hasExisting: bool, recorded: Option<string>, current: string) {
    !hasExisting || (recorded.Some? && recorded.value != current)
  }

  /** Whether source leaf `value` is pending, given the locale's leaf and the recorded one. */
  predicate LeafPending(c: Codec, value: Json, existing: Option<Json>, recorded: Option<Json>) {
    !c.blank(value) && NeedsTranslation(existing.Some?, HashIn(recorded), c.hash(value))
  }

  /** What a built locale holds for source leaf `value`. */
  function LeafTarget(c: Codec, value: Json, existing: Option<Json>, recorded: Option<Json>,
                      answer: Option<Json>): Json {
    if c.blank(value) then value
    else if !LeafPending(c, value, existing, recorded) then existing.value
    else if answer.Some? then answer.value
    else if existing.Some? then existing.value
    else value
  }

  function Answer(translated: map<Path, Json>, path: Path): Option<Json> {
    if path in translated then Some(translated[path]) else None
  }

  // ----- The passes of a run, as they recurse over the source -----

  function CollectPending(c: Codec, source: Fields, existing: Fields, state: Fields, path: Path): seq<Path> {
    match source
    case Nil => []
    case Cons(key, value, rest) =>
      var here :=
        if value.Obj? then CollectPending(c, value.fields, Child(existing, key), Child(state, key), path + [key])
        else if LeafPending(c, value, Leaf(existing, key), Leaf(state, key)) then [path + [key]]
        else [];
      here + CollectPending(c, rest, existing, state, path)
  }

  function BuildLocale(c: Codec, source: Fields, existing: Fields, state: Fields,
                       translated: map<Path, Json>, path: Path): Fields
  {
    match source
    case Nil => Nil
    case Cons(key, value, rest) =>
      var here :=
        if value.Obj?
        then Obj(BuildLocale(c, value.fields, Child(existing, key), Child(state, key), translated, path + [key]))
        else LeafTarget(c, value, Leaf(existing, key), Leaf(state, key), Answer(translated, path + [key]));
      Cons(key, here, BuildLocale(c, rest, existing, state, translated, path))
  }

  /** The pending leaves without a translation. */
  function FailedPaths(c: Codec, source: Fields, existing: Fields, state: Fields,
                       translated: map<Path, Json>, path: Path): set<Path>
  {
    set p | p in CollectPending(c, source, existing, state, path) && p !in translated
  }

  function LeafAt(f: Fields, path: Path): Option<Json>
    decreases |path|
  {
    if path == [] then None
    else if |path| == 1 then Leaf(f, path[0])
    else LeafAt(Child(f, path[0]), path[1..])
  }

  function BuildState(c: Codec, source: Fields, targets: set<Fields>, failed: set<Path>, path: Path): Fields {
    match source
    case Nil => Nil
    case Cons(key, value, rest) =>
      var others := BuildState(c, rest, targets, failed, path);
      if value.Obj? then
        var sub := BuildState(c, value.fields, targets, failed, path + [key]);
        if sub.Nil? then others else Cons(key, Obj(sub), others)
      else if c.blank(value) then Cons(key, Str(c.hash(value)), others)
      else if path + [key] in failed then others
      else if forall t | t in targets :: LeafAt(t, path + [key]).Some? then Cons(key, Str(c.hash(value)), others)
      else others
  }

  // ----- Path-wise meaning of the passes -----

  predicate PendingAt(c: Codec, source: Fields, existing: Fields, state: Fields, p: Path) {
    LeafAt(source, p).Some? && LeafPending(c, LeafAt(source, p).value, LeafAt(existing, p), LeafAt(state, p))
  }

  function TargetAt(c: Codec, source: Fields, existing: Fields, state: Fields, p: Path,
                    answer: Option<Json>): Option<Json> {
    match LeafAt(source, p)
    case None => None
    case Some(v) => Some(LeafTarget(c, v, LeafAt(existing, p), LeafAt(state, p), answer))
  }

  function StateAt(c: Codec, source: Fields, targets: set<Fields>, failed: set<Path>, p: Path,
                   full: Path): Option<Json> {
    match LeafAt(source, p)
    case None => None
    case Some(v) =>
      if c.blank(v) || (full !in failed && forall t | t in targets :: LeafAt(t, full).Some?)
      then Some(Str(c.hash(v))) else None
  }

  lemma {:induction false} LookupAbsent(f: Fields, k: string)
    requires k !in Keys(f)
    ensures Lookup(f, k) == None
  {
    if f.Cons? { LookupAbsent(f.rest, k); }
  }

  lemma LeafAtNil(p: Path)
    ensures LeafAt(Nil, p) == None
    decreases |p|
  {
    if |p| > 1 { LeafAtNil(p[1..]); }
  }

  /** Only the first segment's entry matters. */
  lemma LeafAtDependsOnFirst(f: Fields, g: Fields, p: Path)
    requires p != [] && Lookup(f, p[0]) == Lookup(g, p[0])
    ensures LeafAt(f, p) == LeafAt(g, p)
  {
  }

  lemma {:induction false} LeafAtAbsent(f: Fields, p: Path)
    requires p != [] && p[0] !in Keys(f)
    ensures LeafAt(f, p) == None
  {
    LookupAbsent(f, p[0]);
    LeafAtNil(p[1..]);
  }

  lemma {:induction false} PendingPrefix(c: Codec, source: Fields, existing: Fields, state: Fields, path: Path, p: Path)
    requires p in CollectPending(c, source, existing, state, path)
    ensures |p| > |path| && p[..|path|] == path && p[|path|] in Keys(source)
  {
    var key, value := source.key, source.value;
    if p in CollectPending(c, source.rest, existing, state, path) {
      PendingPrefix(c, source.rest, existing, state, path, p);
    } else if value.Obj? {
      PendingPrefix(c, value.fields, Child(existing, key), Child(state, key), path + [key], p);
      assert p[..|path|] == p[..|path| + 1][..|path|];
      assert p[|path|] == p[..|path| + 1][|path|];
    }
  }

  lemma {:induction false} BelowKey(c: Codec, source: Fields, existing: Fields, state: Fields, path: Path,
                                    key: string, p: Path)
    requires p in CollectPending(c, source, existing, state, path + [key])
    ensures |p| > |path| + 1 && p[|path|] == key
  {
    PendingPrefix(c, source, existing, state, path + [key], p);
    assert p[|path|] == p[..|path| + 1][|path|];
  }

  /** The collected paths are exactly the pending leaves of the source. */
  lemma {:induction false} PendingIff(c: Codec, source: Fields, existing: Fields, state: Fields, path: Path, q: Path)
    requires Distinct(source) && q != []
    ensures path + q in CollectPending(c, source, existing, state, path) <==> PendingAt(c, source, existing, state, q)
    decreases source
  {
    if source.Cons? {
      var key, value := source.key, source.value;
      var tail := CollectPending(c, source.rest, existing, state, path);
      PendingIff(c, source.rest, existing, state, path, q);
      assert (path + q)[|path|] == q[0];
      if q[0] != key {
        LeafAtDependsOnFirst(source, source.rest, q);
        if value.Obj? {
          var here := CollectPending(c, value.fields, Child(existing, key), Child(state, key), path + [key]);
          if path + q in here {
            BelowKey(c, value.fields, Child(existing, key), Child(state, key), path, key, path + q);
          }
        }
      } else {
        if path + q in tail { PendingPrefix(c, source.rest, existing, state, path, path + q); }
        assert path + q !in tail;
        PendingIffHead(c, source, existing, state, path, q);
      }
    } else {
      LeafAtNil(q);
    }
  }

  lemma {:induction false} PendingIffHead(c: Codec, source: Fields, existing: Fields, state: Fields, path: Path,
                                          q: Path)
    requires Distinct(source) && q != [] && source.Cons? && q[0] == source.key
    requires path + q !in CollectPending(c, source.rest, existing, state, path)
    ensures path + q in CollectPending(c, source, existing, state, path) <==> PendingAt(c, source, existing, state, q)
    decreases source, 0
  {
    var key, value := source.key, source.value;
    if value.Obj? {
      var here := CollectPending(c, value.fields, Child(existing, key), Child(state, key), path + [key]);
      if |q| == 1 {
        if path + q in here {
          PendingPrefix(c, value.fields, Child(existing, key), Child(state, key), path + [key], path + q);
        }
      } else {
        assert path + q == (path + [key]) + q[1..];
        PendingIff(c, value.fields, Child(existing, key), Child(state, key), path + [key], q[1..]);
      }
    } else if |q| == 1 {
      assert q == [key];
    } else {
      LeafAtNil(q[1..]);
      assert |path + q| != |path + [key]|;
    }
  }

  ghost predicate NoRepeats(paths: seq<Path>) {
    forall i, j :: 0 <= i < j < |paths| ==> paths[i] != paths[j]
  }

  /** No leaf is collected twice. */
  lemma {:induction false} PendingDistinct(c: Codec, source: Fields, existing: Fields, state: Fields, path: Path)
    requires Distinct(source)
    ensures NoRepeats(CollectPending(c, source, existing, state, path))
    decreases source
  {
    if source.Cons? {
      var key, value := source.key, source.value;
      var tail := CollectPending(c, source.rest, existing, state, path);
      PendingDistinct(c, source.rest, existing, state, path);
      forall p | p in tail ensures |p| > |path| && p[|path|] != key {
        PendingPrefix(c, source.rest, existing, state, path, p);
      }
      if value.Obj? {
        var child, childState := Child(existing, key), Child(state, key);
        PendingDistinct(c, value.fields, child, childState, path + [key]);
        forall p | p in CollectPending(c, value.fields, child, childState, path + [key])
          ensures |p| > |path| && p[|path|] == key
        {
          BelowKey(c, value.fields, child, childState, path, key, p);
        }
      }
    }
  }

  /** Translations are leaves: strings, or lists of strings. */
  ghost predicate LeavesOnly(translated: map<Path, Json>) {
    forall p :: p in translated ==> !translated[p].Obj?
  }

  /** A built locale has exactly the source's leaves: blank, kept, translated, stale or English. */
  lemma {:induction false} BuiltLeaf(c: Codec, source: Fields, existing: Fields, state: Fields,
                                     translated: map<Path, Json>, path: Path, q: Path)
    requires LeavesOnly(translated) && q != []
    ensures LeafAt(BuildLocale(c, source, existing, state, translated, path), q)
         == TargetAt(c, source, existing, state, q, Answer(translated, path + q))
    decreases source
  {
    if source.Cons? {
      var key, value := source.key, source.value;
      var target := BuildLocale(c, source, existing, state, translated, path);
      if q[0] != key {
        LeafAtDependsOnFirst(source, source.rest, q);
        LeafAtDependsOnFirst(target, target.rest, q);
        BuiltLeaf(c, source.rest, existing, state, translated, path, q);
      } else if |q| == 1 {
        assert q == [key];
      } else if value.Obj? {
        assert path + q == (path + [key]) + q[1..];
        BuiltLeaf(c, value.fields, Child(existing, key), Child(state, key), translated, path + [key], q[1..]);
      } else {
        LeafAtNil(q[1..]);
      }
    } else {
      LeafAtNil(q);
    }
  }

  lemma {:induction false} BuildStateKeys(c: Codec, source: Fields, targets: set<Fields>, failed: set<Path>, path: Path)
    ensures Keys(BuildState(c, source, targets, failed, path)) <= Keys(source)
  {
    if source.Cons? {
      BuildStateKeys(c, source.rest, targets, failed, path);
    }
  }

  /** The rebuilt state records the current hash of a leaf, or nothing for it. */
  lemma {:induction false} BuiltState(c: Codec, source: Fields, targets: set<Fields>, failed: set<Path>, path: Path,
                                      q: Path)
    requires Distinct(source) && q != []
    ensures LeafAt(BuildState(c, source, targets, failed, path), q) == StateAt(c, source, targets, failed, q, path + q)
    decreases source
  {
    if source.Cons? {
      var key, value := source.key, source.value;
      var state := BuildState(c, source, targets, failed, path);
      var others := BuildState(c, source.rest, targets, failed, path);
      if q[0] != key {
        LeafAtDependsOnFirst(source, source.rest, q);
        LeafAtDependsOnFirst(state, others, q);
        BuiltState(c, source.rest, targets, failed, path, q);
      } else {
        BuildStateKeys(c, source.rest, targets, failed, path);
        LeafAtAbsent(others, q);
        LookupAbsent(others, key);
        LeafAtNil(q[1..]);
        if value.Obj? && |q| > 1 {
          assert path + q == (path + [key]) + q[1..];
          BuiltState(c, value.fields, targets, failed, path + [key], q[1..]);
        } else if |q| == 1 {
          assert q == [key];
        }
      }
    } else {
      LeafAtNil(q);
    }
  }

  // ----- Equality of objects -----

  /** Every entry of `a` is in `b`, with an equal value. */
  predicate Within(a: Fields, b: Fields)
    decreases a
  {
    match a
    case Nil => true
    case Cons(key, value, rest) =>
      Lookup(b, key).Some? && SameValue(value, Lookup(b, key).value) && Within(rest, b)
  }

  predicate SameValue(v: Json, w: Json)
    decreases v
  {
    if v.Obj? then w.Obj? && Within(v.fields, w.fields) && Keys(w.fields) <= Keys(v.fields) else v == w
  }

  /** Equality of parsed objects: the order of keys does not count. */
  predicate Same(a: Fields, b: Fields) {
    Within(a, b) && Keys(b) <= Keys(a)
  }

  lemma {:induction false} WithinLookup(a: Fields, b: Fields, k: string)
    requires Within(a, b) && k in Keys(a)
    ensures Lookup(a, k).Some? && Lookup(b, k).Some? && SameValue(Lookup(a, k).value, Lookup(b, k).value)
  {
    if a.key != k { WithinLookup(a.rest, b, k); }
  }

  /** Equal objects have the same leaves. */
  lemma {:induction false} SameLeafAt(a: Fields, b: Fields, p: Path)
    requires Same(a, b)
    ensures LeafAt(a, p) == LeafAt(b, p)
    decreases |p|
  {
    if p != [] {
      if p[0] in Keys(a) {
        WithinLookup(a, b, p[0]);
        if |p| > 1 && Lookup(a, p[0]).value.Obj? {
          SameLeafAt(Child(a, p[0]), Child(b, p[0]), p[1..]);
        }
      } else {
        LeafAtAbsent(a, p);
        LeafAtAbsent(b, p);
      }
    }
  }

  lemma {:induction false} WithinSelf(a: Fields, b: Fields)
    requires Distinct(a) && forall k :: k in Keys(a) ==> Lookup(b, k) == Lookup(a, k)
    ensures Within(a, b)
    decreases a
  {
    if a.Cons? {
      assert a.key in Keys(a);
      if a.value.Obj? { WithinSelf(a.value.fields, a.value.fields); }
      WithinSelf(a.rest, b);
    }
  }

  lemma {:induction false} BuildKeys(c: Codec, source: Fields, existing: Fields, state: Fields,
                                     translated: map<Path, Json>, path: Path)
    ensures Keys(BuildLocale(c, source, existing, state, translated, path)) == Keys(source)
  {
    if source.Cons? { BuildKeys(c, source.rest, existing, state, translated, path); }
  }

  lemma {:induction false} BuildDistinct(c: Codec, source: Fields, existing: Fields, state: Fields,
                                         translated: map<Path, Json>, path: Path)
    requires Distinct(source) && LeavesOnly(translated)
    ensures Distinct(BuildLocale(c, source, existing, state, translated, path))
  {
    if source.Cons? {
      if source.value.Obj? {
        BuildDistinct(c, source.value.fields, Child(existing, source.key), Child(state, source.key), translated,
                      path + [source.key]);
      }
      BuildDistinct(c, source.rest, existing, state, translated, path);
      BuildKeys(c, source.rest, existing, state, translated, path);
    }
  }

  // ----- A run over several locales -----

  /** The locale files and the shared hash state. */
  datatype World = World(files: map<string, Fields>, state: Fields)

  function File(files: map<string, Fields>, l: string): Fields {
    if l in files then files[l] else Nil
  }

  /** What the translator answered at each iteration; arbitrary but for being leaves. */
  type Answers = nat -> map<Path, Json>

  ghost predicate Answering(answers: Answers) {
    forall i: nat :: LeavesOnly(answers(i))
  }

  function Target(c: Codec, source: Fields, w: World, l: string, translated: map<Path, Json>): Fields {
    BuildLocale(c, source, File(w.files, l), w.state, translated, [])
  }

  /** A locale file is written only when its contents changed. */
  function Save(w: World, l: string, target: Fields): World {
    if Same(target, File(w.files, l)) then w else w.(files := w.files[l := target])
  }

  /** The world after the locales of a run, before the state is rebuilt. */
  function AfterLocales(c: Codec, source: Fields, w: World, locales: seq<string>, answers: Answers): (r: World)
    ensures r.state == w.state
  {
    if locales == [] then w
    else
      var n := |locales| - 1;
      var before := AfterLocales(c, source, w, locales[..n], answers);
      Save(before, locales[n], Target(c, source, before, locales[n], answers(n)))
  }

  /** The trees that a run has built, by locale. */
  function RunTargets(c: Codec, source: Fields, w: World, locales: seq<string>, answers: Answers): map<string, Fields> {
    if locales == [] then map[]
    else
      var n := |locales| - 1;
      var before := AfterLocales(c, source, w, locales[..n], answers);
      RunTargets(c, source, w, locales[..n], answers)[locales[n] := Target(c, source, before, locales[n], answers(n))]
  }

  function RunFailed(c: Codec, source: Fields, w: World, locales: seq<string>, answers: Answers): set<Path> {
    if locales == [] then {}
    else
      var n := |locales| - 1;
      var before := AfterLocales(c, source, w, locales[..n], answers);
      RunFailed(c, source, w, locales[..n], answers)
      + FailedPaths(c, source, File(before.files, locales[n]), w.state, answers(n), [])
  }

  predicate FullRun(supported: set<string>, locales: seq<string>) {
    supported == set l | l in locales
  }

  function Run(c: Codec, source: Fields, w: World, supported: set<string>, locales: seq<string>,
               answers: Answers): World {
    var after := AfterLocales(c, source, w, locales, answers);
    if locales != [] && source.Cons? && FullRun(supported, locales)
    then after.(state := BuildState(c, source, RunTargets(c, source, w, locales, answers).Values,
                                    RunFailed(c, source, w, locales, answers), []))
    else if source.Cons? then after else w
  }

  function Pending(c: Codec, source: Fields, w: World, l: string): seq<Path> {
    CollectPending(c, source, File(w.files, l), w.state, [])
  }

  /** The recorded hash at `p` exists and is not the current one. */
  predicate StaleAt(c: Codec, source: Fields, state: Fields, p: Path) {
    && LeafAt(source, p).Some? && !c.blank(LeafAt(source, p).value)
    && match LeafAt(state, p)
       case Some(Str(h)) => h != c.hash(LeafAt(source, p).value)
       case _ => false
  }

  /** A processed locale's file equals the tree that was built for it. */
  lemma {:induction false} ProcessedIsTarget(c: Codec, source: Fields, w: World, locales: seq<string>,
                                             answers: Answers, l: string)
    requires Distinct(source) && Answering(answers) && l in locales
    ensures l in RunTargets(c, source, w, locales, answers)
    ensures Same(RunTargets(c, source, w, locales, answers)[l],
                 File(AfterLocales(c, source, w, locales, answers).files, l))
    decreases |locales|
  {
    var n := |locales| - 1;
    var before := AfterLocales(c, source, w, locales[..n], answers);
    if l == locales[n] {
      var target := Target(c, source, before, l, answers(n));
      BuildDistinct(c, source, File(before.files, l), w.state, answers(n), []);
      WithinSelf(target, target);
    } else {
      assert l in locales[..n];
      ProcessedIsTarget(c, source, w, locales[..n], answers, l);
    }
  }

  lemma {:induction false} TargetHasLeaves(c: Codec, source: Fields, w: World, locales: seq<string>,
                                           answers: Answers, l: string, p: Path)
    requires Answering(answers) && l in RunTargets(c, source, w, locales, answers)
    ensures LeafAt(RunTargets(c, source, w, locales, answers)[l], p).Some? <==> LeafAt(source, p).Some?
    decreases |locales|
  {
    var n := |locales| - 1;
    var before := AfterLocales(c, source, w, locales[..n], answers);
    if l == locales[n] {
      if p != [] { BuiltLeaf(c, source, File(before.files, l), w.state, answers(n), [], p); }
    } else {
      TargetHasLeaves(c, source, w, locales[..n], answers, l, p);
    }
  }

  /** Every processed locale ends with exactly the leaves of the source. */
  lemma {:induction false} ProcessedHasLeaves(c: Codec, source: Fields, w: World, locales: seq<string>,
                                              answers: Answers, l: string, p: Path)
    requires Distinct(source) && Answering(answers) && l in locales
    ensures LeafAt(File(AfterLocales(c, source, w, locales, answers).files, l), p).Some? <==> LeafAt(source, p).Some?
  {
    ProcessedIsTarget(c, source, w, locales, answers, l);
    TargetHasLeaves(c, source, w, locales, answers, l, p);
    SameLeafAt(RunTargets(c, source, w, locales, answers)[l],
               File(AfterLocales(c, source, w, locales, answers).files, l), p);
  }

  lemma {:induction false} PendingPathsAreLeaves(c: Codec, source: Fields, w: World, l: string, p: Path)
    requires Distinct(source)
    ensures p in Pending(c, source, w, l) <==> PendingAt(c, source, File(w.files, l), w.state, p)
  {
    if p == [] {
      if p in Pending(c, source, w, l) { PendingPrefix(c, source, File(w.files, l), w.state, [], p); }
    } else {
      PendingIff(c, source, File(w.files, l), w.state, [], p);
      assert [] + p == p;
    }
  }

  /** Exactly which leaves a run will translate for a locale: the missing ones, and those whose
      recorded hash is out of date. */
  lemma {:induction false} PendingExactly(c: Codec, source: Fields, w: World, l: string, p: Path)
    requires Distinct(source)
    ensures p in Pending(c, source, w, l)
       <==> && LeafAt(source, p).Some? && !c.blank(LeafAt(source, p).value)
            && (LeafAt(File(w.files, l), p).None? || StaleAt(c, source, w.state, p))
  {
    PendingPathsAreLeaves(c, source, w, l, p);
  }

  /** What becomes of each leaf: a pending one with an answer takes the answer, one that is not
      pending stays as it was, a blank one is copied, and leaves the source lacks are pruned. */
  lemma {:induction false} LeafOutcome(c: Codec, source: Fields, w: World, l: string, translated: map<Path, Json>,
                                       p: Path)
    requires Distinct(source) && LeavesOnly(translated)
    ensures
      var got := LeafAt(Target(c, source, w, l, translated), p);
      var pending := p in Pending(c, source, w, l);
      && (LeafAt(source, p).None? ==> got == None)
      && (pending && p in translated ==> got == Some(translated[p]))
      && (LeafAt(source, p).Some? && c.blank(LeafAt(source, p).value) ==> got == LeafAt(source, p))
      && (LeafAt(source, p).Some? && !c.blank(LeafAt(source, p).value) && !pending ==>
          got == LeafAt(File(w.files, l), p))
  {
    PendingPathsAreLeaves(c, source, w, l, p);
    if p != [] {
      BuiltLeaf(c, source, File(w.files, l), w.state, translated, [], p);
      assert [] + p == p;
    }
  }

  /** What a full run records: the current hash, unless the leaf failed in some locale. */
  lemma {:induction false} RecordedAfterFullRun(c: Codec, source: Fields, w: World, supported: set<string>,
                                                locales: seq<string>, answers: Answers, p: Path)
    requires Distinct(source) && Answering(answers) && FullRun(supported, locales) && locales != []
    requires LeafAt(source, p).Some?
    ensures
      var v := LeafAt(source, p).value;
      LeafAt(Run(c, source, w, supported, locales, answers).state, p)
      == if c.blank(v) || p !in RunFailed(c, source, w, locales, answers) then Some(Str(c.hash(v))) else None
  {
    var failed := RunFailed(c, source, w, locales, answers);
    if source.Nil? { LeafAtNil(p); }
    var targets := RunTargets(c, source, w, locales, answers);
    BuiltState(c, source, targets.Values, failed, [], p);
    assert [] + p == p;
    forall t | t in targets.Values
      ensures LeafAt(t, p).Some?
    {
      var l :| l in targets && t == targets[l];
      TargetHasLeaves(c, source, w, locales, answers, l, p);
    }
  }

  /** The exact retry condition. After a run, a leaf is pending for a processed locale exactly when
      the run was a subset run and the state it retained records a different hash: whether the leaf
      was translated, failed or was never attempted in that run makes no difference. */
  lemma {:induction false} RetryIff(c: Codec, source: Fields, w: World, supported: set<string>, locales: seq<string>,
                                    answers: Answers, l: string, p: Path)
    requires Distinct(source) && Answering(answers) && l in locales
    ensures p in Pending(c, source, Run(c, source, w, supported, locales, answers), l)
       <==> !FullRun(supported, locales) && StaleAt(c, source, w.state, p)
  {
    var next := Run(c, source, w, supported, locales, answers);
    var after := AfterLocales(c, source, w, locales, answers);
    PendingPathsAreLeaves(c, source, next, l, p);
    if source.Nil? {
      LeafAtNil(p);
    } else if LeafAt(source, p).Some? {
      ProcessedHasLeaves(c, source, w, locales, answers, l, p);
      assert next.files == after.files;
      if FullRun(supported, locales) {
        RecordedAfterFullRun(c, source, w, supported, locales, answers, p);
      }
    }
  }

  /** Convergence: after a full run nothing is pending in any supported locale, whatever the
      translator answered. */
  lemma {:induction false} NothingPendingAfterFullRun(c: Codec, source: Fields, w: World, supported: set<string>,
                                                      locales: seq<string>, answers: Answers, l: string)
    requires Distinct(source) && Answering(answers) && FullRun(supported, locales) && l in supported
    ensures Pending(c, source, Run(c, source, w, supported, locales, answers), l) == []
  {
    var pending := Pending(c, source, Run(c, source, w, supported, locales, answers), l);
    if pending != [] {
      RetryIff(c, source, w, supported, locales, answers, l, pending[0]);
      assert false;
    }
  }

  // ----- Repeated full runs -----

  /** The tree has the source's keys, leaves where it has leaves, and its blank leaves. */
  predicate Shaped(c: Codec, source: Fields, t: Fields) {
    match source
    case Nil => true
    case Cons(key, value, rest) =>
      && Lookup(t, key).Some? && Shaped(c, rest, t)
      && (if value.Obj?
          then Lookup(t, key).value.Obj? && Shaped(c, value.fields, Child(t, key))
              && Keys(Child(t, key)) <= Keys(value.fields)
          else Leaf(t, key).Some? && (c.blank(value) ==> Leaf(t, key).value == value))
  }

  predicate HasShape(c: Codec, source: Fields, t: Fields) {
    Shaped(c, source, t) && Keys(t) <= Keys(source)
  }

  /** What equals a built tree has its shape. */
  lemma {:induction false} BuiltShape(c: Codec, source: Fields, existing: Fields, state: Fields,
                                      translated: map<Path, Json>, path: Path, t: Fields)
    requires LeavesOnly(translated) && Within(BuildLocale(c, source, existing, state, translated, path), t)
    ensures Shaped(c, source, t)
    decreases source
  {
    if source.Cons? {
      if source.value.Obj? {
        var child, childState, sub := Child(existing, source.key), Child(state, source.key), path + [source.key];
        BuiltShape(c, source.value.fields, child, childState, translated, sub, Child(t, source.key));
        BuildKeys(c, source.value.fields, child, childState, translated, sub);
      }
      BuiltShape(c, source.rest, existing, state, translated, path, t);
    }
  }

  /** Building from a tree of the right shape with nothing pending changes nothing. */
  lemma {:induction false} RebuildIsSame(c: Codec, source: Fields, t: Fields, state: Fields,
                                         translated: map<Path, Json>, path: Path)
    requires Shaped(c, source, t) && CollectPending(c, source, t, state, path) == []
    ensures Within(BuildLocale(c, source, t, state, translated, path), t)
    decreases source
  {
    if source.Cons? {
      if source.value.Obj? {
        var child, childState, sub := Child(t, source.key), Child(state, source.key), path + [source.key];
        RebuildIsSame(c, source.value.fields, child, childState, translated, sub);
        BuildKeys(c, source.value.fields, child, childState, translated, sub);
      }
      RebuildIsSame(c, source.rest, t, state, translated, path);
    }
  }

  /** Every supported locale has the source's shape and nothing pending. */
  ghost predicate Settled(c: Codec, source: Fields, w: World, supported: set<string>) {
    forall l :: l in supported ==> HasShape(c, source, File(w.files, l)) && Pending(c, source, w, l) == []
  }

  lemma {:induction false} TargetBuilt(c: Codec, source: Fields, w: World, locales: seq<string>, answers: Answers,
                                       l: string, t: Fields)
    requires Answering(answers) && l in RunTargets(c, source, w, locales, answers)
    requires Same(RunTargets(c, source, w, locales, answers)[l], t)
    ensures HasShape(c, source, t)
    decreases |locales|
  {
    var n := |locales| - 1;
    var before := AfterLocales(c, source, w, locales[..n], answers);
    if l == locales[n] {
      BuiltShape(c, source, File(before.files, l), w.state, answers(n), [], t);
      BuildKeys(c, source, File(before.files, l), w.state, answers(n), []);
    } else {
      TargetBuilt(c, source, w, locales[..n], answers, l, t);
    }
  }

  lemma {:induction false} FullRunSettles(c: Codec, source: Fields, w: World, supported: set<string>,
                                          locales: seq<string>, answers: Answers)
    requires Distinct(source) && source.Cons? && Answering(answers) && FullRun(supported, locales)
    ensures Settled(c, source, Run(c, source, w, supported, locales, answers), supported)
  {
    var next, after := Run(c, source, w, supported, locales, answers), AfterLocales(c, source, w, locales, answers);
    assert next.files == after.files;
    forall l | l in supported
      ensures HasShape(c, source, File(next.files, l)) && Pending(c, source, next, l) == []
    {
      ProcessedIsTarget(c, source, w, locales, answers, l);
      TargetBuilt(c, source, w, locales, answers, l, File(after.files, l));
      NothingPendingAfterFullRun(c, source, w, supported, locales, answers, l);
    }
  }

  /** Over a settled world a run writes no locale file and no leaf fails. */
  lemma {:induction false} SettledRunIsQuiet(c: Codec, source: Fields, w: World, supported: set<string>,
                                             locales: seq<string>, answers: Answers)
    requires Distinct(source) && Settled(c, source, w, supported)
    requires forall l :: l in locales ==> l in supported
    ensures AfterLocales(c, source, w, locales, answers) == w
    ensures RunFailed(c, source, w, locales, answers) == {}
    decreases |locales|
  {
    if locales != [] {
      var n := |locales| - 1;
      SettledRunIsQuiet(c, source, w, supported, locales[..n], answers);
      var t := File(w.files, locales[n]);
      assert Pending(c, source, w, locales[n]) == [];
      RebuildIsSame(c, source, t, w.state, answers(n), []);
      BuildKeys(c, source, t, w.state, answers(n), []);
    }
  }

  /** The state depends on the built trees only through the leaves they lack. */
  lemma {:induction false} BuildStateOfComplete(c: Codec, source: Fields, a: set<Fields>, b: set<Fields>,
                                                failed: set<Path>, path: Path)
    requires forall t, q :: t in a + b && LeafAt(source, q).Some? ==> LeafAt(t, path + q).Some?
    requires Distinct(source)
    ensures BuildState(c, source, a, failed, path) == BuildState(c, source, b, failed, path)
    decreases source
  {
    if source.Cons? {
      var key, value := source.key, source.value;
      forall t, q | t in a + b && LeafAt(source.rest, q).Some? ensures LeafAt(t, path + q).Some? {
        LeafOfRest(source, q);
      }
      BuildStateOfComplete(c, source.rest, a, b, failed, path);
      if value.Obj? {
        forall t, q | t in a + b && LeafAt(value.fields, q).Some? ensures LeafAt(t, path + [key] + q).Some? {
          assert ([key] + q)[1..] == q && LeafAt(source, [key] + q) == LeafAt(value.fields, q);
          assert path + ([key] + q) == path + [key] + q;
        }
        BuildStateOfComplete(c, value.fields, a, b, failed, path + [key]);
      } else {
        assert LeafAt(source, [key]).Some?;
        forall t | t in a + b ensures LeafAt(t, path + [key]).Some? {
        }
        assert forall t | t in a :: LeafAt(t, path + [key]).Some?;
        assert forall t | t in b :: LeafAt(t, path + [key]).Some?;
      }
    }
  }

  lemma {:induction false} LeafOfRest(f: Fields, q: Path)
    requires f.Cons? && f.key !in Keys(f.rest) && LeafAt(f.rest, q).Some?
    ensures LeafAt(f, q) == LeafAt(f.rest, q)
  {
    if q[0] == f.key {
      LeafAtAbsent(f.rest, q);
    } else {
      LeafAtDependsOnFirst(f, f.rest, q);
    }
  }

  lemma {:induction false} QuietState(c: Codec, source: Fields, w1: World, l1: seq<string>, a1: Answers, w2: World,
                                      l2: seq<string>, a2: Answers)
    requires Distinct(source) && Answering(a1) && Answering(a2)
    ensures BuildState(c, source, RunTargets(c, source, w1, l1, a1).Values, {}, [])
         == BuildState(c, source, RunTargets(c, source, w2, l2, a2).Values, {}, [])
  {
    var t1, t2 := RunTargets(c, source, w1, l1, a1), RunTargets(c, source, w2, l2, a2);
    forall t, q | t in t1.Values + t2.Values && LeafAt(source, q).Some? ensures LeafAt(t, [] + q).Some? {
      assert [] + q == q;
      if t in t1.Values {
        var l :| l in t1 && t1[l] == t;
        TargetHasLeaves(c, source, w1, l1, a1, l, q);
      } else {
        var l :| l in t2 && t2[l] == t;
        TargetHasLeaves(c, source, w2, l2, a2, l, q);
      }
    }
    BuildStateOfComplete(c, source, t1.Values, t2.Values, {}, []);
  }

  /** Full runs reach a fixpoint at the second run, whatever the translator answers: the second
      run writes no locale file, it records the current hash of every leaf (also of those that
      failed in the first run), and a third one changes nothing at all. */
  lemma {:induction false} FullRunsReachFixpoint(c: Codec, source: Fields, w: World, supported: set<string>,
      l1: seq<string>, a1: Answers, l2: seq<string>, a2: Answers, l3: seq<string>, a3: Answers)
    requires Distinct(source) && source.Cons? && supported != {}
    requires Answering(a1) && Answering(a2) && Answering(a3)
    requires FullRun(supported, l1) && FullRun(supported, l2) && FullRun(supported, l3)
    ensures
      var w1 := Run(c, source, w, supported, l1, a1);
      var w2 := Run(c, source, w1, supported, l2, a2);
      && w2.files == w1.files
      && Run(c, source, w2, supported, l3, a3) == w2
      && forall p :: LeafAt(source, p).Some? ==> LeafAt(w2.state, p) == Some(Str(c.hash(LeafAt(source, p).value)))
  {
    var w1 := Run(c, source, w, supported, l1, a1);
    var w2 := Run(c, source, w1, supported, l2, a2);
    FullRunSettles(c, source, w, supported, l1, a1);
    SettledRunIsQuiet(c, source, w1, supported, l2, a2);
    FullRunSettles(c, source, w1, supported, l2, a2);
    SettledRunIsQuiet(c, source, w2, supported, l3, a3);
    QuietState(c, source, w1, l2, a2, w2, l3, a3);
    forall p | LeafAt(source, p).Some?
      ensures LeafAt(w2.state, p) == Some(Str(c.hash(LeafAt(source, p).value)))
    {
      RecordedAfterFullRun(c, source, w1, supported, l2, a2, p);
    }
  }

  // ----- A leaf that failed in a full run -----

  /** What a failed leaf leaves in the locale: the stale translation, or English. */
  function Fallback(source: Fields, existing: Fields, p: Path): Option<Json> {
    if LeafAt(existing, p).Some? then LeafAt(existing, p) else LeafAt(source, p)
  }

  lemma {:induction false} FailedLeafValue(c: Codec, source: Fields, w: World, l: string,
                                           translated: map<Path, Json>, p: Path)
    requires Distinct(source) && LeavesOnly(translated)
    requires p in FailedPaths(c, source, File(w.files, l), w.state, translated, [])
    ensures LeafAt(source, p).Some? && !c.blank(LeafAt(source, p).value)
    ensures LeafAt(Target(c, source, w, l, translated), p) == Fallback(source, File(w.files, l), p)
  {
    PendingPathsAreLeaves(c, source, w, l, p);
    BuiltLeaf(c, source, File(w.files, l), w.state, translated, [], p);
    assert [] + p == p;
  }

  /** A locale keeps what its last processing built, and the failures of that processing count. */
  lemma {:induction false} LastProcessing(c: Codec, source: Fields, w: World, locales: seq<string>, answers: Answers,
                                          n: nat)
    requires n < |locales| && locales[n] !in locales[n + 1..]
    ensures
      var before := AfterLocales(c, source, w, locales[..n], answers);
      && locales[n] in RunTargets(c, source, w, locales, answers)
      && RunTargets(c, source, w, locales, answers)[locales[n]] == Target(c, source, before, locales[n], answers(n))
      && FailedPaths(c, source, File(before.files, locales[n]), w.state, answers(n), [])
         <= RunFailed(c, source, w, locales, answers)
    decreases |locales|
  {
    var m := |locales| - 1;
    if n < m {
      assert locales[m] in locales[n + 1..];
      assert locales[..m][n + 1..] == locales[n + 1..m];
      assert locales[..m][..n] == locales[..n];
      LastProcessing(c, source, w, locales[..m], answers, n);
    }
  }

  /** The code's comments promise that a failed leaf is retried by the next run. After a full run
      it is not: the next run finds nothing pending, and certifies the stale or English value
      with the current hash. */
  lemma {:induction false} FailedLeafIsAdopted(c: Codec, source: Fields, w: World, supported: set<string>,
      l1: seq<string>, a1: Answers, n: nat, l2: seq<string>, a2: Answers, p: Path)
    requires Distinct(source) && Answering(a1) && Answering(a2)
    requires FullRun(supported, l1) && FullRun(supported, l2)
    requires n < |l1| && l1[n] !in l1[n + 1..]
    requires p in FailedPaths(c, source, File(AfterLocales(c, source, w, l1[..n], a1).files, l1[n]), w.state, a1(n), [])
    ensures
      var w1 := Run(c, source, w, supported, l1, a1);
      var w2 := Run(c, source, w1, supported, l2, a2);
      && LeafAt(source, p).Some? && LeafAt(w1.state, p) == None
      && Pending(c, source, w1, l1[n]) == []
      && LeafAt(File(w2.files, l1[n]), p)
          == Fallback(source, File(AfterLocales(c, source, w, l1[..n], a1).files, l1[n]), p)
      && LeafAt(w2.state, p) == Some(Str(c.hash(LeafAt(source, p).value)))
  {
    var before := AfterLocales(c, source, w, l1[..n], a1);
    FailedLeafValue(c, source, before, l1[n], a1(n), p);
    LastProcessing(c, source, w, l1, a1, n);
    ProcessedIsTarget(c, source, w, l1, a1, l1[n]);
    SameLeafAt(RunTargets(c, source, w, l1, a1)[l1[n]], File(AfterLocales(c, source, w, l1, a1).files, l1[n]), p);
    if source.Nil? { LeafAtNil(p); }
    NothingPendingAfterFullRun(c, source, w, supported, l1, a1, l1[n]);
    RecordedAfterFullRun(c, source, w, supported, l1, a1, p);
    FullRunsReachFixpoint(c, source, w, supported, l1, a1, l2, a2, l2, a2);
  }

  // ----- The loops -----

  class Counters {
    var pending: nat
    var kept: nat
    var translated: nat
    var failed: nat
    var failedPaths: set<Path>

    constructor ()
      ensures pending == 0 && kept == 0 && translated == 0 && failed == 0 && failedPaths == {}
    {
      pending, kept, translated, failed, failedPaths := 0, 0, 0, 0, {};
    }

    ghost function Value(): Tally
      reads this
    {
      Tally(pending, kept, translated, failed, failedPaths)
    }
  }

  datatype Tally = Tally(pending: nat, kept: nat, translated: nat, failed: nat, failedPaths: set<Path>)

  /** Between two moments `leaves` leaves were counted, each once as kept or pending, and each of the
      `pending` ones once as translated or failed. */
  ghost predicate Counted(before: Tally, after: Tally, pending: nat, failed: set<Path>, leaves: nat) {
    && after.pending == before.pending + pending
    && after.failedPaths == before.failedPaths + failed
    && after.kept + after.pending == before.kept + before.pending + leaves
    && after.translated + after.failed - after.pending == before.translated + before.failed - before.pending
    && after.failed >= before.failed
    && (after.failed == before.failed <==> failed == {})
  }

  lemma CountedTwice(t0: Tally, t1: Tally, t2: Tally, p1: nat, p2: nat, f1: set<Path>, f2: set<Path>, l1: nat, l2: nat)
    requires Counted(t0, t1, p1, f1, l1) && Counted(t1, t2, p2, f2, l2)
    ensures Counted(t0, t2, p1 + p2, f1 + f2, l1 + l2)
  {
  }

  function Append(a: Fields, b: Fields): Fields {
    match a
    case Nil => b
    case Cons(k, v, rest) => Cons(k, v, Append(rest, b))
  }

  lemma {:induction false} AppendOne(a: Fields, k: string, v: Json, b: Fields)
    ensures Append(Append(a, Cons(k, v, Nil)), b) == Append(a, Cons(k, v, b))
  {
    if a.Cons? { AppendOne(a.rest, k, v, b); }
  }

  lemma {:induction false} AppendNil(a: Fields)
    ensures Append(a, Nil) == a
  {
    if a.Cons? { AppendNil(a.rest); }
  }

  ghost function Size(f: Fields): nat {
    match f
    case Nil => 0
    case Cons(_, v, rest) => 1 + (if v.Obj? then Size(v.fields) else 0) + Size(rest)
  }

  function Leaves(f: Fields): nat {
    match f
    case Nil => 0
    case Cons(_, v, rest) => (if v.Obj? then Leaves(v.fields) else 1) + Leaves(rest)
  }

  /** Builds one leaf and counts it. */
  method BuildLeaf(c: Codec, value: Json, existing: Option<Json>, recorded: Option<Json>, answers: map<Path, Json>,
                   counters: Counters, path: Path) returns (here: Json)
    modifies counters
    ensures here == LeafTarget(c, value, existing, recorded, Answer(answers, path))
    ensures var pending := LeafPending(c, value, existing, recorded);
            Counted(old(counters.Value()), counters.Value(), if pending then 1 else 0,
                    if pending && path !in answers then {path} else {}, 1)
  {
    if !LeafPending(c, value, existing, recorded) {
      here := if c.blank(value) then value else existing.value;
      counters.kept := counters.kept + 1;
      return;
    }
    counters.pending := counters.pending + 1;
    if path in answers {
      here := answers[path];
      counters.translated := counters.translated + 1;
    } else {
      counters.failed := counters.failed + 1;
      counters.failedPaths := counters.failedPaths + {path};
      here := if existing.Some? then existing.value else value;
    }
  }

  /** Builds one locale's tree while counting; every leaf is counted once as kept or pending, and
      every pending one once as translated or failed. */
  method BuildLocaleTree(c: Codec, source: Fields, existing: Fields, state: Fields, answers: map<Path, Json>,
                         counters: Counters, path: Path) returns (target: Fields)
    modifies counters
    ensures target == BuildLocale(c, source, existing, state, answers, path)
    ensures Counted(old(counters.Value()), counters.Value(), |CollectPending(c, source, existing, state, path)|,
                    FailedPaths(c, source, existing, state, answers, path), Leaves(source))
    decreases Size(source), 1
  {
    target := Nil;
    var todo := source;
    ghost var pending: nat, failed: set<Path>, leaves: nat := 0, {}, 0;
    while todo.Cons?
      invariant Size(todo) <= Size(source)
      invariant Append(target, BuildLocale(c, todo, existing, state, answers, path))
             == BuildLocale(c, source, existing, state, answers, path)
      invariant Counted(old(counters.Value()), counters.Value(), pending, failed, leaves)
      invariant pending + |CollectPending(c, todo, existing, state, path)|
             == |CollectPending(c, source, existing, state, path)|
      invariant failed + FailedPaths(c, todo, existing, state, answers, path)
             == FailedPaths(c, source, existing, state, answers, path)
      invariant leaves + Leaves(todo) == Leaves(source)
      decreases todo
    {
      ghost var before := counters.Value();
      var here;
      ghost var pending1, failed1, leaves1;
      here, pending1, failed1, leaves1 := BuildEntry(c, todo, existing, state, answers, counters, path);
      CountedTwice(old(counters.Value()), before, counters.Value(), pending, pending1, failed, failed1, leaves,
                   leaves1);
      AppendOne(target, todo.key, here, BuildLocale(c, todo.rest, existing, state, answers, path));
      pending, failed, leaves := pending + pending1, failed + failed1, leaves + leaves1;
      target := Append(target, Cons(todo.key, here, Nil));
      todo := todo.rest;
    }
    AppendNil(target);
  }

  /** Builds the first entry of an object; what is counted is what the entry adds to the whole. */
  method BuildEntry(c: Codec, source: Fields, existing: Fields, state: Fields, answers: map<Path, Json>,
                    counters: Counters, path: Path)
    returns (here: Json, ghost pending: nat, ghost failed: set<Path>, ghost leaves: nat)
    requires source.Cons?
    modifies counters
    ensures BuildLocale(c, source, existing, state, answers, path)
         == Cons(source.key, here, BuildLocale(c, source.rest, existing, state, answers, path))
    ensures Counted(old(counters.Value()), counters.Value(), pending, failed, leaves)
    ensures |CollectPending(c, source, existing, state, path)|
         == pending + |CollectPending(c, source.rest, existing, state, path)|
    ensures FailedPaths(c, source, existing, state, answers, path)
         == failed + FailedPaths(c, source.rest, existing, state, answers, path)
    ensures Leaves(source) == leaves + Leaves(source.rest)
    decreases Size(source), 0
  {
    var key, value := source.key, source.value;
    FailedOfCons(c, source, existing, state, answers, path);
    if value.Obj? {
      var sub := BuildLocaleTree(c, value.fields, Child(existing, key), Child(state, key), answers, counters,
                                 path + [key]);
      here := Obj(sub);
      pending := |CollectPending(c, value.fields, Child(existing, key), Child(state, key), path + [key])|;
      failed := FailedPaths(c, value.fields, Child(existing, key), Child(state, key), answers, path + [key]);
      leaves := Leaves(value.fields);
    } else {
      here := BuildLeaf(c, value, Leaf(existing, key), Leaf(state, key), answers, counters, path + [key]);
      pending := if LeafPending(c, value, Leaf(existing, key), Leaf(state, key)) then 1 else 0;
      failed := if pending == 1 && path + [key] !in answers then {path + [key]} else {};
      leaves := 1;
    }
  }

  /** The failed paths of the first entry, then of the others. */
  lemma {:induction false} FailedOfCons(c: Codec, source: Fields, existing: Fields, state: Fields,
                                        answers: map<Path, Json>, path: Path)
    requires source.Cons?
    ensures
      var key, value := source.key, source.value;
      FailedPaths(c, source, existing, state, answers, path)
      == (if value.Obj?
          then FailedPaths(c, value.fields, Child(existing, key), Child(state, key), answers, path + [key])
          else if LeafPending(c, value, Leaf(existing, key), Leaf(state, key)) && path + [key] !in answers
              then {path + [key]}
          else {})
         + FailedPaths(c, source.rest, existing, state, answers, path)
  {
  }
}
