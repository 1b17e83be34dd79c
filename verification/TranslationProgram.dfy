/** The translation program as a whole: the protocol of `LocaleSync` over the translations that
    `PendingTranslation` obtains from the service of `BatchTranslator`. */
module TranslationProgram {
  import opened Options
  import opened LocaleSync
  import B = BatchTranslator
  import M = MessageScanner
  import P = PendingTranslation

  // ----- What a translation is -----

  /** The translation is not blank, compiles, and has the source's placeholders, escapes, printf tokens,
      links and plural separators. */
  ghost predicate Accepted(cl: M.Classes, src: string, out: string) {
    && (exists i :: 0 <= i < |out| && !cl.space(out[i])) && |M.BarsAt(src)| == |M.BarsAt(out)|
    && exists ps :: M.WellFormed(cl, ps) && M.Render(ps) == out && M.SameContents(ps, M.Parse(cl, src).0)
  }

  /** A string of a list leaf that has to be translated. */
  predicate Translatable(cl: M.Classes, x: P.Elem) {
    x.Str? && !M.Blank(cl, x.s)
  }

  /** An element-wise translation: strings are translated, everything else is kept. */
  ghost predicate ValidTranslation(cl: M.Classes, src: Json, out: Json) {
    match src
    case Str(s) => out.Str? && Accepted(cl, s, out.s)
    case List(items) =>
      && out.List? && |out.items| == |items|
      && forall e :: 0 <= e < |items| ==> ValidElement(cl, items[e], out.items[e])
    case _ => false
  }

  ghost predicate ValidElement(cl: M.Classes, src: P.Elem, out: P.Elem) {
    if Translatable(cl, src) then out.Str? && Accepted(cl, src.s, out.s) else out == src
  }

  /** Every answer is a translation of the source leaf at its path. */
  ghost predicate Justified(cl: M.Classes, source: Fields, translated: map<Path, Json>) {
    forall p :: p in translated ==>
      LeafAt(source, p).Some? && ValidTranslation(cl, LeafAt(source, p).value, translated[p])
  }

  lemma JustifiedLeaves(cl: M.Classes, source: Fields, translated: map<Path, Json>)
    requires Justified(cl, source, translated)
    ensures LeavesOnly(translated)
  {
    forall p | p in translated ensures !translated[p].Obj? {
      assert ValidTranslation(cl, LeafAt(source, p).value, translated[p]);
    }
  }

  // ----- One locale -----

  /** The source's leaves are strings and lists. */
  ghost predicate Textual(source: Fields) {
    forall p :: LeafAt(source, p).Some? ==> LeafAt(source, p).value.Str? || LeafAt(source, p).value.List?
  }

  function ValueOf(v: Json): P.Value
    requires !v.Obj?
  {
    match v
    case Str(s) => P.Single(s)
    case List(items) => P.Many(items)
    case Raw(text) => P.Bare(text)
  }

  function ToJson(v: P.Value): Json {
    match v
    case Single(s) => Str(s)
    case Many(items) => List(items)
    case Bare(text) => Raw(text)
  }

  lemma ValidatedIsAccepted(cl: M.Classes, src: string, answer: Option<string>)
    requires M.Sane(cl) && M.Validate(cl, src, answer).Some?
    ensures answer.Some? && Accepted(cl, src, answer.value)
  {
    M.AcceptedIff(cl, src, answer.value);
  }

  /** A leaf whose elements are all fine, with its strings replaced, is a translation. */
  lemma ReplacedIsValid(cl: M.Classes, pending: seq<P.Leaf>, outs: seq<Option<string>>, u: nat, src: Json, r: P.Value)
    requires M.Sane(cl) && u < |pending| && !src.Obj? && pending[u].value == ValueOf(src)
    requires forall e :: 0 <= e < P.Width(pending[u].value) ==> P.ElementOk(cl, pending, outs, u, e)
    requires P.ReplacedBy(cl, pending, outs, u, r)
    ensures ValidTranslation(cl, src, ToJson(r))
  {
    var v := pending[u].value;
    forall e | 0 <= e < P.Width(v)
      ensures P.IsWord(cl, v, e) ==> P.ElementAt(r, e).Str? && Accepted(cl, P.Word(cl, v, e), P.ElementAt(r, e).s)
      ensures !P.IsWord(cl, v, e) ==> P.ElementAt(r, e) == v.items[e]
    {
      assert P.ElementOk(cl, pending, outs, u, e);
      if P.IsWord(cl, v, e) {
        ValidatedIsAccepted(cl, P.Word(cl, v, e), P.AnswerFor(cl, pending, outs, u, e));
      }
    }
    if src.List? {
      forall e | 0 <= e < |src.items| ensures ValidElement(cl, src.items[e], r.items[e]) {
        assert P.ElementAt(r, e) == r.items[e];
      }
    } else {
      assert P.IsWord(cl, v, 0) && P.ElementOk(cl, pending, outs, u, 0);
      assert P.ElementAt(r, 0) == P.Str(r.s);
    }
  }

  /** All paths lead to leaves of the source. */
  predicate LeafPaths(source: Fields, paths: seq<Path>) {
    forall i :: 0 <= i < |paths| ==> LeafAt(source, paths[i]).Some? && !LeafAt(source, paths[i]).value.Obj?
  }

  function LeavesFor(source: Fields, paths: seq<Path>): (r: seq<P.Leaf>)
    requires LeafPaths(source, paths)
    ensures |r| == |paths|
    ensures forall i :: 0 <= i < |paths| ==> r[i] == P.Leaf(paths[i], ValueOf(LeafAt(source, paths[i]).value))
  {
    seq(|paths|, i requires 0 <= i < |paths| => P.Leaf(paths[i], ValueOf(LeafAt(source, paths[i]).value)))
  }

  lemma ResultJustified(cl: M.Classes, source: Fields, paths: seq<Path>, pending: seq<P.Leaf>,
                        outs: seq<Option<string>>,
                        result: map<Path, P.Value>, p: Path)
    requires M.Sane(cl) && LeafPaths(source, paths)
    requires pending == LeavesFor(source, paths) && |outs| == |P.Flat(cl, pending, |pending|)|
    requires P.IsResult(pending, P.AllFinal(cl, pending, outs), |pending|, result) && p in result
    ensures LeafAt(source, p).Some? && ValidTranslation(cl, LeafAt(source, p).value, ToJson(result[p]))
  {
    var u :| 0 <= u < |pending| && pending[u].path == p;
    P.TranslatedIff(cl, pending, outs, result, u);
    ReplacedIsValid(cl, pending, outs, u, LeafAt(source, p).value, result[p]);
  }

  // ----- What the answers of the service make of the pending leaves -----

  /** The pending leaves of a locale, in the order in which they are collected. */
  ghost function PendingLeaves(c: Codec, source: Fields, existing: Fields, state: Fields): (r: seq<P.Leaf>)
    requires Distinct(source)
    ensures var paths := CollectPending(c, source, existing, state, []);
            && |r| == |paths|
            && forall i :: 0 <= i < |r| ==>
                 && r[i].path == paths[i] && LeafAt(source, paths[i]).Some? && !LeafAt(source, paths[i]).value.Obj?
                 && r[i].value == ValueOf(LeafAt(source, paths[i]).value)
  {
    PendingAreLeaves(c, source, existing, state);
    LeavesFor(source, CollectPending(c, source, existing, state, []))
  }

  lemma PendingAreLeaves(c: Codec, source: Fields, existing: Fields, state: Fields)
    requires Distinct(source)
    ensures LeafPaths(source, CollectPending(c, source, existing, state, []))
  {
    var paths := CollectPending(c, source, existing, state, []);
    forall i | 0 <= i < |paths| ensures LeafAt(source, paths[i]).Some? && !LeafAt(source, paths[i]).value.Obj? {
      PendingIsLeaf(c, source, existing, state, paths[i]);
    }
  }

  /** The service's answers to the work list of the pending leaves, in its order. */
  ghost function Replies(cl: M.Classes, pending: seq<P.Leaf>, size: nat, oracles: nat -> B.Oracle,
                         key: P.Entry -> string): seq<Option<string>>
    requires size > 0
  {
    P.Outs(oracles, key, P.Flat(cl, pending, |pending|), size)
  }

  /** The answer for string `e` of pending leaf `u`, at its own place in the work list. */
  ghost function AnswerAt(cl: M.Classes, pending: seq<P.Leaf>, outs: seq<Option<string>>, u: nat,
                          e: nat): Option<string> {
    if u < |pending| && e < P.Width(pending[u].value) then P.AnswerFor(cl, pending, outs, u, e) else None
  }

  /** All strings of the leaf have answers that validate, and it is a string, or a list without null. */
  ghost predicate WellAnswered(cl: M.Classes, leaf: Json, answer: nat -> Option<string>) {
    match leaf
    case Str(s) => M.Validate(cl, s, answer(0)).Some?
    case List(items) => forall e :: 0 <= e < |items| ==> ElementAnswered(cl, items[e], answer(e))
    case _ => false
  }

  ghost predicate ElementAnswered(cl: M.Classes, x: P.Elem, answer: Option<string>) {
    if Translatable(cl, x) then M.Validate(cl, x.s, answer).Some? else !x.Null?
  }

  /** The leaf with its strings replaced by their answers. */
  ghost predicate IsReplacement(cl: M.Classes, leaf: Json, answer: nat -> Option<string>, out: Json) {
    match leaf
    case Str(s) => answer(0).Some? && out == Str(answer(0).value)
    case List(items) =>
      && out.List? && |out.items| == |items|
      && forall e :: 0 <= e < |items| ==> ElementReplaced(cl, items[e], answer(e), out.items[e])
    case _ => false
  }

  ghost predicate ElementReplaced(cl: M.Classes, x: P.Elem, answer: Option<string>, out: P.Elem) {
    if Translatable(cl, x) then answer.Some? && out == P.Str(answer.value) else out == x
  }

  ghost predicate IsMessage(cl: M.Classes, answer: Option<string>) {
    answer.Some? && !M.Blank(cl, answer.value) && M.Parse(cl, answer.value).1
  }

  ghost function AnswersTo(cl: M.Classes, pending: seq<P.Leaf>, outs: seq<Option<string>>,
                           u: nat): nat -> Option<string> {
    (e: nat) => AnswerAt(cl, pending, outs, u, e)
  }

  /** Some leaf that is neither a string nor a list gets a message for an answer. */
  ghost predicate RawGetsMessage(cl: M.Classes, source: Fields, pending: seq<P.Leaf>, outs: seq<Option<string>>) {
    exists u :: 0 <= u < |pending| && LeafAt(source, pending[u].path).Some? &&
                LeafAt(source, pending[u].path).value.Raw? && IsMessage(cl, AnswerAt(cl, pending, outs, u, 0))
  }

  /** The translations of one locale are exactly those that the answers allow. */
  ghost predicate FollowsAnswers(cl: M.Classes, source: Fields, pending: seq<P.Leaf>, outs: seq<Option<string>>,
                                 translated: map<Path, Json>)
    requires forall u :: 0 <= u < |pending| ==> LeafAt(source, pending[u].path).Some?
  {
    && (forall p :: p in translated ==> exists u :: 0 <= u < |pending| && pending[u].path == p)
    && forall u :: 0 <= u < |pending| ==>
         LeafFollows(cl, LeafAt(source, pending[u].path).value, AnswersTo(cl, pending, outs, u), pending[u].path,
                     translated)
  }

  ghost predicate LeafFollows(cl: M.Classes, leaf: Json, answer: nat -> Option<string>, path: Path,
                              translated: map<Path, Json>)
  {
    && (path in translated <==> WellAnswered(cl, leaf, answer))
    && (path in translated ==> IsReplacement(cl, leaf, answer, translated[path]))
  }

  /** What one locale gets from its service. */
  ghost predicate Obtained(cl: M.Classes, c: Codec, source: Fields, existing: Fields, state: Fields, size: nat,
                           oracles: nat -> B.Oracle, key: P.Entry -> string, crashed: bool,
                           translated: map<Path, Json>)
  {
    Distinct(source) && size > 0 &&
    var pending := PendingLeaves(c, source, existing, state);
    var outs := Replies(cl, pending, size, oracles, key);
    && (crashed <==> RawGetsMessage(cl, source, pending, outs))
    && if crashed then translated == map[] else FollowsAnswers(cl, source, pending, outs, translated)
  }

  /** How the translations of each locale of a run come about: the number of the locale, its file, whether
      the program crashed, and the translations. */
  type Origin = (nat, Fields, bool, map<Path, Json>) -> bool

  /** From the services of the locales. */
  ghost function FromService(cl: M.Classes, c: Codec, source: Fields, state: Fields, size: nat,
                             oracles: nat -> nat -> B.Oracle, key: P.Entry -> string): Origin
  {
    (n: nat, existing: Fields, crashed: bool, translated: map<Path, Json>) =>
      Obtained(cl, c, source, existing, state, size, oracles(n), key, crashed, translated)
  }

  /** Whatever the service of a locale gives is admitted. */
  ghost predicate Admits(from: Origin, cl: M.Classes, c: Codec, source: Fields, state: Fields, size: nat,
                         oracles: nat -> nat -> B.Oracle, key: P.Entry -> string)
  {
    forall n: nat, existing, crashed, translated ::
      Obtained(cl, c, source, existing, state, size, oracles(n), key, crashed, translated) ==>
      from(n, existing, crashed, translated)
  }

  lemma ServiceAdmitted(cl: M.Classes, c: Codec, source: Fields, state: Fields, size: nat,
                        oracles: nat -> nat -> B.Oracle, key: P.Entry -> string)
    ensures Admits(FromService(cl, c, source, state, size, oracles, key), cl, c, source, state, size, oracles, key)
  {
  }

  lemma ElementIff(cl: M.Classes, pending: seq<P.Leaf>, outs: seq<Option<string>>, u: nat, leaf: Json)
    requires u < |pending| && !leaf.Obj? && pending[u].value == ValueOf(leaf)
    ensures (forall e :: 0 <= e < P.Width(pending[u].value) ==> P.ElementOk(cl, pending, outs, u, e)) <==>
            WellAnswered(cl, leaf, AnswersTo(cl, pending, outs, u))
  {
    var v, answer := pending[u].value, AnswersTo(cl, pending, outs, u);
    match leaf
    case Str(s) => assert P.ElementOk(cl, pending, outs, u, 0) <==> M.Validate(cl, s, answer(0)).Some?;
    case List(items) =>
      forall e | 0 <= e < |items|
        ensures P.ElementOk(cl, pending, outs, u, e) <==> ElementAnswered(cl, items[e], answer(e))
      {
      }
    case Raw(_) => assert !P.ElementOk(cl, pending, outs, u, 0);
  }

  lemma ReplacementIff(cl: M.Classes, pending: seq<P.Leaf>, outs: seq<Option<string>>, u: nat, leaf: Json, r: P.Value)
    requires u < |pending| && !leaf.Obj? && pending[u].value == ValueOf(leaf) && !leaf.Raw?
    requires P.ReplacedBy(cl, pending, outs, u, r)
    ensures IsReplacement(cl, leaf, AnswersTo(cl, pending, outs, u), ToJson(r))
  {
    var answer := AnswersTo(cl, pending, outs, u);
    match leaf
    case Str(s) =>
      assert P.IsWord(cl, pending[u].value, 0) && P.ElementAt(r, 0) == P.Str(r.s);
      assert Some(P.ElementAt(r, 0)) == P.AnswerElem(answer(0));
    case List(items) =>
      forall e | 0 <= e < |items| ensures ElementReplaced(cl, items[e], answer(e), r.items[e]) {
        assert P.ElementAt(r, e) == r.items[e];
      }
  }

  lemma LeafOfResult(cl: M.Classes, source: Fields, pending: seq<P.Leaf>, outs: seq<Option<string>>,
                     result: map<Path, P.Value>, translated: map<Path, Json>, u: nat, leaf: Json)
    requires u < |pending| && !leaf.Obj? && pending[u].value == ValueOf(leaf)
    requires |outs| == |P.Flat(cl, pending, |pending|)|
    requires P.IsResult(pending, P.AllFinal(cl, pending, outs), |pending|, result)
    requires translated == map p | p in result :: ToJson(result[p])
    ensures LeafFollows(cl, leaf, AnswersTo(cl, pending, outs, u), pending[u].path, translated)
  {
    P.TranslatedIff(cl, pending, outs, result, u);
    ElementIff(cl, pending, outs, u, leaf);
    if pending[u].path in result { ReplacementIff(cl, pending, outs, u, leaf, result[pending[u].path]); }
  }

  lemma ResultFollows(cl: M.Classes, source: Fields, paths: seq<Path>, pending: seq<P.Leaf>, outs: seq<Option<string>>,
                      result: map<Path, P.Value>, translated: map<Path, Json>)
    requires LeafPaths(source, paths)
    requires pending == LeavesFor(source, paths) && |outs| == |P.Flat(cl, pending, |pending|)|
    requires P.IsResult(pending, P.AllFinal(cl, pending, outs), |pending|, result)
    requires translated == map p | p in result :: ToJson(result[p])
    ensures FollowsAnswers(cl, source, pending, outs, translated)
  {
    forall u | 0 <= u < |pending|
      ensures LeafFollows(cl, LeafAt(source, pending[u].path).value, AnswersTo(cl, pending, outs, u), pending[u].path,
                          translated)
    {
      LeafOfResult(cl, source, pending, outs, result, translated, u, LeafAt(source, paths[u]).value);
    }
  }

  /** The program crashes exactly when a leaf that is neither a string nor a list gets a message. */
  lemma CrashIff(cl: M.Classes, source: Fields, paths: seq<Path>, pending: seq<P.Leaf>, outs: seq<Option<string>>)
    requires LeafPaths(source, paths)
    requires pending == LeavesFor(source, paths) && |outs| == |P.Flat(cl, pending, |pending|)|
    ensures P.RaisesBefore(cl, P.Flat(cl, pending, |pending|), outs, |outs|)
        <==> RawGetsMessage(cl, source, pending, outs)
  {
    var flat := P.Flat(cl, pending, |pending|);
    if RawGetsMessage(cl, source, pending, outs) {
      var u :| 0 <= u < |pending| && LeafAt(source, pending[u].path).Some? &&
               LeafAt(source, pending[u].path).value.Raw? && IsMessage(cl, AnswerAt(cl, pending, outs, u, 0));
      P.BareLeafIsNeverTranslated(cl, pending, outs, map[], u);
    }
    if P.RaisesBefore(cl, flat, outs, |outs|) {
      var k :| 0 <= k < |outs| && P.RaisesAt(cl, flat, outs, k);
      RaisedAt(cl, source, paths, pending, outs, k);
    }
  }

  lemma RaisedAt(cl: M.Classes, source: Fields, paths: seq<Path>, pending: seq<P.Leaf>, outs: seq<Option<string>>,
                 k: nat)
    requires LeafPaths(source, paths)
    requires pending == LeavesFor(source, paths) && |outs| == |P.Flat(cl, pending, |pending|)|
    requires P.RaisesAt(cl, P.Flat(cl, pending, |pending|), outs, k)
    ensures RawGetsMessage(cl, source, pending, outs)
  {
    var flat := P.Flat(cl, pending, |pending|);
    P.FlatOk(cl, pending, |pending|, k);
    var u := flat[k].u;
    assert pending[u].path == paths[u] && pending[u].value == ValueOf(LeafAt(source, paths[u]).value);
    assert LeafAt(source, pending[u].path).value.Raw? && AnswerAt(cl, pending, outs, u, 0) == outs[k];
  }

  /** The translations for one locale: exactly those that the service's answers allow.  It crashes exactly
      when a leaf that is neither a string nor a list gets a message for an answer. */
  method TranslateLocale(cl: M.Classes, c: Codec, source: Fields, existing: Fields, state: Fields, size: nat,
                         oracles: nat -> B.Oracle, key: P.Entry -> string, order: nat -> seq<nat>)
    returns (crashed: bool, translated: map<Path, Json>)
    requires M.Sane(cl) && Distinct(source) && size > 0
    requires forall n: nat :: P.CompletionOrder(order(n), n)
    ensures Obtained(cl, c, source, existing, state, size, oracles, key, crashed, translated)
    ensures Justified(cl, source, translated)
    ensures forall p :: p in translated ==> p in CollectPending(c, source, existing, state, [])
    ensures crashed ==> HasRaw(source, CollectPending(c, source, existing, state, []))
  {
    var paths := CollectPending(c, source, existing, state, []);
    PendingAreLeaves(c, source, existing, state);
    PendingDistinct(c, source, existing, state, []);
    var pending := LeavesFor(source, paths);
    ghost var outs := Replies(cl, pending, size, oracles, key);
    CrashIff(cl, source, paths, pending, outs);
    if paths == [] { return false, map[]; }
    var result;
    crashed, result := P.TranslatePending(cl, pending, size, oracles, key, order);
    if crashed {
      RaisedByRaw(cl, source, paths, pending, outs);
      return true, map[];
    }
    translated := map p | p in result :: ToJson(result[p]);
    ResultFollows(cl, source, paths, pending, outs, result, translated);
    ResultSound(cl, source, paths, pending, outs, result, translated);
  }

  lemma ResultSound(cl: M.Classes, source: Fields, paths: seq<Path>, pending: seq<P.Leaf>, outs: seq<Option<string>>,
                    result: map<Path, P.Value>, translated: map<Path, Json>)
    requires M.Sane(cl) && LeafPaths(source, paths)
    requires pending == LeavesFor(source, paths) && |outs| == |P.Flat(cl, pending, |pending|)|
    requires P.IsResult(pending, P.AllFinal(cl, pending, outs), |pending|, result)
    requires translated == map p | p in result :: ToJson(result[p])
    ensures Justified(cl, source, translated) && forall p :: p in translated ==> p in paths
  {
    forall p | p in result
      ensures p in paths
      ensures LeafAt(source, p).Some? && ValidTranslation(cl, LeafAt(source, p).value, ToJson(result[p]))
    {
      var u :| 0 <= u < |pending| && pending[u].path == p;
      ResultJustified(cl, source, paths, pending, outs, result, p);
    }
  }

  /** One of the leaves is neither a string nor a list. */
  ghost predicate HasRaw(source: Fields, paths: seq<Path>) {
    exists i :: 0 <= i < |paths| && LeafAt(source, paths[i]).Some? && LeafAt(source, paths[i]).value.Raw?
  }

  lemma RaisedByRaw(cl: M.Classes, source: Fields, paths: seq<Path>, pending: seq<P.Leaf>, outs: seq<Option<string>>)
    requires LeafPaths(source, paths)
    requires pending == LeavesFor(source, paths)
    requires P.RaisesBefore(cl, P.Flat(cl, pending, |pending|), outs, |outs|)
    ensures HasRaw(source, paths)
  {
    var flat := P.Flat(cl, pending, |pending|);
    var k :| 0 <= k < |outs| && P.RaisesAt(cl, flat, outs, k);
    P.FlatOk(cl, pending, |pending|, k);
    assert pending[flat[k].u].value == ValueOf(LeafAt(source, paths[flat[k].u]).value);
  }

  lemma PendingIsLeaf(c: Codec, source: Fields, existing: Fields, state: Fields, p: Path)
    requires Distinct(source) && p in CollectPending(c, source, existing, state, [])
    ensures LeafAt(source, p).Some? && !LeafAt(source, p).value.Obj?
  {
    PendingPrefix(c, source, existing, state, [], p);
    PendingIff(c, source, existing, state, [], p);
    assert [] + p == p;
    LeafIsNoObject(source, p);
  }

  lemma {:induction false} LeafIsNoObject(f: Fields, p: Path)
    ensures LeafAt(f, p).Some? ==> !LeafAt(f, p).value.Obj?
    decreases |p|
  {
    if |p| > 1 { LeafIsNoObject(Child(f, p[0]), p[1..]); }
  }

  // ----- The whole run -----

  ghost function AnswersOf(given: seq<map<Path, Json>>): Answers {
    (n: nat) => if n < |given| then given[n] else map[]
  }

  ghost predicate AllJustified(cl: M.Classes, source: Fields, answers: Answers) {
    forall n: nat :: Justified(cl, source, answers(n))
  }

  /** A run depends only on the answers for its own locales. */
  lemma {:induction false} SameAnswers(c: Codec, source: Fields, w: World, locales: seq<string>, a: Answers, b: Answers)
    requires forall i: nat :: i < |locales| ==> a(i) == b(i)
    ensures AfterLocales(c, source, w, locales, a) == AfterLocales(c, source, w, locales, b)
    ensures RunFailed(c, source, w, locales, a) == RunFailed(c, source, w, locales, b)
    ensures RunTargets(c, source, w, locales, a) == RunTargets(c, source, w, locales, b)
    decreases |locales|
  {
    if locales != [] {
      SameAnswers(c, source, w, locales[..|locales| - 1], a, b);
    }
  }

  /** One more locale of a run. */
  lemma RunStep(c: Codec, source: Fields, w: World, locales: seq<string>, n: nat, given: seq<map<Path, Json>>,
                next: map<Path, Json>)
    requires n < |locales| && |given| == n
    ensures
      var (done, l) := (locales[..n], locales[n]);
      var (a, b) := (AnswersOf(given), AnswersOf(given + [next]));
      var before := AfterLocales(c, source, w, done, a);
      var target := BuildLocale(c, source, File(before.files, l), w.state, next, []);
      && AfterLocales(c, source, w, locales[..n + 1], b) == Save(before, l, target)
      && RunTargets(c, source, w, locales[..n + 1], b) == RunTargets(c, source, w, done, a)[l := target]
      && RunFailed(c, source, w, locales[..n + 1], b)
         == RunFailed(c, source, w, done, a) + FailedPaths(c, source, File(before.files, l), w.state, next, [])
  {
    var a, b := AnswersOf(given), AnswersOf(given + [next]);
    assert locales[..n + 1][..n] == locales[..n];
    SameAnswers(c, source, w, locales[..n], a, b);
    assert b(n) == next;
  }

  class Repository {
    var files: map<string, Fields>
    var state: Fields

    constructor (files: map<string, Fields>, state: Fields)
      ensures this.files == files && this.state == state
    {
      this.files, this.state := files, state;
    }

    function Contents(): World
      reads this
    {
      World(files, state)
    }

    /** One locale: its translations are obtained, its tree is built, and its file written if it changed. */
    method ProcessLocale(cl: M.Classes, c: Codec, source: Fields, l: string, size: nat,
                         oracles: nat -> nat -> B.Oracle, n: nat, key: P.Entry -> string, order: nat -> seq<nat>,
                         counters: Counters, ghost from: Origin)
      returns (crashed: bool, translated: map<Path, Json>, target: Fields)
      requires M.Sane(cl) && Distinct(source) && size > 0
      requires forall n: nat :: P.CompletionOrder(order(n), n)
      requires counters.failed == 0 <==> counters.failedPaths == {}
      requires Admits(from, cl, c, source, state, size, oracles, key)
      modifies this`files, counters
      ensures from(n, old(File(files, l)), crashed, translated)
      ensures Justified(cl, source, translated) && (crashed ==> !Textual(source) && translated == map[])
      ensures crashed ==> Contents() == old(Contents()) && counters.failedPaths == old(counters.failedPaths)
      ensures !crashed ==>
                var existing := old(File(files, l));
                && target == BuildLocale(c, source, existing, state, translated, [])
                && Contents() == Save(old(Contents()), l, target)
                && counters.failedPaths ==
                   old(counters.failedPaths) + FailedPaths(c, source, existing, state, translated, [])
      ensures counters.failed == 0 <==> counters.failedPaths == {}
    {
      target := Nil;
      var existing := File(files, l);
      crashed, translated := TranslateLocale(cl, c, source, existing, state, size, oracles(n), key, order);
      if crashed { return; }
      target := BuildLocaleTree(c, source, existing, state, translated, counters, []);
      if !Same(target, existing) { files := files[l := target]; }
    }

    /** The loop over the locales; a crash ends it after `|given|` of them. */
    method ProcessLocales(cl: M.Classes, c: Codec, source: Fields, locales: seq<string>, size: nat,
                          oracles: nat -> nat -> B.Oracle, key: P.Entry -> string, order: nat -> seq<nat>,
                          ghost from: Origin)
      returns (crashed: bool, targets: map<string, Fields>, failed: nat, failedPaths: set<Path>,
               ghost given: seq<map<Path, Json>>)
      requires M.Sane(cl) && Distinct(source) && size > 0
      requires forall n: nat :: P.CompletionOrder(order(n), n)
      requires Admits(from, cl, c, source, state, size, oracles, key)
      modifies this`files
      ensures if crashed then |given| < |locales| && !Textual(source) else |given| == |locales|
      ensures forall i :: 0 <= i < |given| ==> Justified(cl, source, given[i])
      ensures Processed(c, source, old(Contents()), locales[..|given|], given, Contents(), targets, failedPaths)
      ensures failed == 0 <==> failedPaths == {}
      ensures Follows(from, c, source, old(Contents()), locales, |given|, AnswersOf(given), crashed)
    {
      given, targets, failedPaths := [], map[], {};
      var counters := new Counters();
      ghost var w := Contents();
      assert locales[..0] == [];
      for n := 0 to |locales|
        invariant |given| == n && forall i :: 0 <= i < n ==> Justified(cl, source, given[i])
        invariant Processed(c, source, w, locales[..n], given, Contents(), targets, failedPaths)
        invariant failedPaths == counters.failedPaths && (counters.failed == 0 <==> failedPaths == {})
        invariant Follows(from, c, source, w, locales, n, AnswersOf(given), false)
      {
        ghost var now := Contents();
        var l := locales[n];
        var crash, translated, target :=
          ProcessLocale(cl, c, source, l, size, oracles, n, key, order, counters, from);
        FollowsStep(from, c, source, w, locales, n, given, now, targets, failedPaths, crash, translated);
        if crash { return true, targets, counters.failed, failedPaths, given; }
        targets := targets[l := target];
        given, failedPaths := given + [translated], counters.failedPaths;
      }
      crashed, failed := false, counters.failed;
    }

    /** One run of the program.  It refuses an empty list of locales or an empty source, and it may
        crash when the source has a leaf that is neither a string nor a list: then the `n` locales
        before are written and the state is not.  Otherwise `failed` is the number of failures it
        reports.  The answers for each locale are exactly those that its service allows, and all are
        validated translations of source leaves. */
    method Translate(cl: M.Classes, c: Codec, source: Fields, supported: set<string>, locales: seq<string>,
                     size: nat, oracles: nat -> nat -> B.Oracle, key: P.Entry -> string, order: nat -> seq<nat>)
      returns (end: End, failed: nat, ghost n: nat, ghost answers: Answers)
      requires M.Sane(cl) && Distinct(source) && size > 0
      requires forall n: nat :: P.CompletionOrder(order(n), n)
      modifies this
      ensures end.Refused? <==> locales == [] || source.Nil?
      ensures end.Crashed? ==> n < |locales| && !Textual(source)
      ensures AllJustified(cl, source, answers) && Answering(answers)
      ensures Contents() == if end.Crashed? then AfterLocales(c, source, old(Contents()), locales[..n], answers)
                            else Run(c, source, old(Contents()), supported, locales, answers)
      ensures end.Finished? ==> (failed == 0 <==> RunFailed(c, source, old(Contents()), locales, answers) == {})
      ensures end.Finished? ==> n == |locales|
      ensures !end.Refused? ==> Follows(FromService(cl, c, source, old(state), size, oracles, key), c, source,
                                        old(Contents()), locales, n, answers, end.Crashed?)
      ensures locales != [] && !source.Nil? && size <= 0x1_0000_0000 && WellServed(cl, source, oracles) ==>
                end.Finished? && failed == 0
    {
      end, failed, n, answers := Refused, 0, 0, AnswersOf([]);
      if locales != [] && !source.Nil? {
        var crashed, targets, failedPaths;
        ghost var given;
        ServiceAdmitted(cl, c, source, state, size, oracles, key);
        crashed, targets, failed, failedPaths, given :=
          ProcessLocales(cl, c, source, locales, size, oracles, key, order,
                         FromService(cl, c, source, state, size, oracles, key));
        n, answers := |given|, AnswersOf(given);
        assert locales[..|locales|] == locales;
        end := if crashed then Crashed else Finished;
        if size <= 0x1_0000_0000 && WellServed(cl, source, oracles) {
          NothingFails(cl, c, source, old(Contents()), locales, n, size, oracles, key, answers, crashed);
        }
        if !crashed && supported == (set l | l in locales) {
          state := BuildState(c, source, targets.Values, failedPaths, []);
        }
      }
      JustifiedAnswering(cl, source, answers);
    }
  }

  datatype End = Refused | Crashed | Finished

  /** The translations of the first `n` locales of a run, and the crash at the next one, come about in the
      given way, each from the file as the locales before have left it. */
  ghost predicate Follows(from: Origin, c: Codec, source: Fields, w: World, locales: seq<string>, n: nat,
                          answers: Answers, crashed: bool)
  {
    && n <= |locales| && (forall i: nat :: i < n ==> LocaleFollows(from, c, source, w, locales, i, answers))
    && (crashed ==> n < |locales| &&
                    from(n, File(AfterLocales(c, source, w, locales[..n], answers).files, locales[n]), true, map[]))
  }

  ghost predicate LocaleFollows(from: Origin, c: Codec, source: Fields, w: World, locales: seq<string>, i: nat,
                                answers: Answers)
    requires i < |locales|
  {
    from(i, File(AfterLocales(c, source, w, locales[..i], answers).files, locales[i]), false, answers(i))
  }

  lemma FollowsSame(from: Origin, c: Codec, source: Fields, w: World, locales: seq<string>, i: nat, a: Answers,
                    b: Answers)
    requires i < |locales| && LocaleFollows(from, c, source, w, locales, i, a) && forall j: nat :: j <= i ==>
        a(j) == b(j)
    ensures LocaleFollows(from, c, source, w, locales, i, b)
  {
    SameAnswers(c, source, w, locales[..i], a, b);
  }

  lemma FollowsOneMore(from: Origin, c: Codec, source: Fields, w: World, locales: seq<string>, n: nat,
                       given: seq<map<Path, Json>>, translated: map<Path, Json>)
    requires n < |locales| && |given| == n && Follows(from, c, source, w, locales, n, AnswersOf(given), false)
    requires from(n, File(AfterLocales(c, source, w, locales[..n], AnswersOf(given)).files, locales[n]), false,
                  translated)
    ensures Follows(from, c, source, w, locales, n + 1, AnswersOf(given + [translated]), false)
  {
    var a, b := AnswersOf(given), AnswersOf(given + [translated]);
    forall i: nat | i < n + 1 ensures LocaleFollows(from, c, source, w, locales, i, b) {
      if i < n {
        assert LocaleFollows(from, c, source, w, locales, i, a);
        FollowsSame(from, c, source, w, locales, i, a, b);
      } else {
        SameAnswers(c, source, w, locales[..n], a, b);
      }
    }
  }

  /** One more locale. */
  lemma FollowsStep(from: Origin, c: Codec, source: Fields, w: World, locales: seq<string>, n: nat,
                    given: seq<map<Path, Json>>, now: World, targets: map<string, Fields>, failedPaths: set<Path>,
                    crashed: bool, translated: map<Path, Json>)
    requires n < |locales| && |given| == n && Follows(from, c, source, w, locales, n, AnswersOf(given), false)
    requires Processed(c, source, w, locales[..n], given, now, targets, failedPaths)
    requires from(n, File(now.files, locales[n]), crashed, translated) && (crashed ==> translated == map[])
    ensures crashed ==> Follows(from, c, source, w, locales, n, AnswersOf(given), true)
    ensures !crashed ==> Follows(from, c, source, w, locales, n + 1, AnswersOf(given + [translated]), false)
    ensures
      var l := locales[n];
      var existing := File(now.files, l);
      var target := BuildLocale(c, source, existing, w.state, translated, []);
      Processed(c, source, w, locales[..n + 1], given + [translated], Save(now, l, target), targets[l := target],
                failedPaths + FailedPaths(c, source, existing, w.state, translated, []))
  {
    ProcessedStep(c, source, w, locales, n, given, translated, now, targets, failedPaths);
    if !crashed { FollowsOneMore(from, c, source, w, locales, n, given, translated); }
  }

  /** What the loop over the locales has written and collected. */
  ghost predicate Processed(c: Codec, source: Fields, w: World, locales: seq<string>, given: seq<map<Path, Json>>,
                            now: World, targets: map<string, Fields>, failedPaths: set<Path>)
  {
    && now == AfterLocales(c, source, w, locales, AnswersOf(given))
    && targets == RunTargets(c, source, w, locales, AnswersOf(given))
    && failedPaths == RunFailed(c, source, w, locales, AnswersOf(given))
  }

  /** One more locale. */
  lemma ProcessedStep(c: Codec, source: Fields, w: World, locales: seq<string>, n: nat, given: seq<map<Path, Json>>,
                      next: map<Path, Json>, now: World, targets: map<string, Fields>, failedPaths: set<Path>)
    requires n < |locales| && |given| == n
    requires Processed(c, source, w, locales[..n], given, now, targets, failedPaths)
    ensures
      var l := locales[n];
      var existing := File(now.files, l);
      var target := BuildLocale(c, source, existing, w.state, next, []);
      Processed(c, source, w, locales[..n + 1], given + [next], Save(now, l, target), targets[l := target],
                failedPaths + FailedPaths(c, source, existing, w.state, next, []))
  {
    RunStep(c, source, w, locales, n, given, next);
  }

  /** Where a leaf may come from: it was there before, it is the source's own, or it is an
      element-wise validated translation of the source's. */
  ghost predicate Sound(cl: M.Classes, source: Fields, before: Fields, got: Option<Json>, p: Path) {
    || got == LeafAt(before, p)
    || got == LeafAt(source, p)
    || (got.Some? && LeafAt(source, p).Some? && ValidTranslation(cl, LeafAt(source, p).value, got.value))
  }

  lemma JustifiedAnswering(cl: M.Classes, source: Fields, answers: Answers)
    requires AllJustified(cl, source, answers)
    ensures Answering(answers)
  {
    forall i: nat ensures LeavesOnly(answers(i)) {
      JustifiedLeaves(cl, source, answers(i));
    }
  }

  lemma TargetSound(cl: M.Classes, c: Codec, source: Fields, before: Fields, w: World, l: string,
                    translated: map<Path, Json>, p: Path)
    requires Distinct(source) && Justified(cl, source, translated)
    requires Sound(cl, source, before, LeafAt(File(w.files, l), p), p)
    ensures Sound(cl, source, before, LeafAt(Target(c, source, w, l, translated), p), p)
  {
    JustifiedLeaves(cl, source, translated);
    if p != [] {
      BuiltLeaf(c, source, File(w.files, l), w.state, translated, [], p);
      assert [] + p == p;
    }
  }

  lemma {:induction false} AfterLocalesSound(cl: M.Classes, c: Codec, source: Fields, w: World, locales: seq<string>,
                                             answers: Answers, l: string, p: Path)
    requires Distinct(source) && AllJustified(cl, source, answers)
    ensures Sound(cl, source, File(w.files, l),
                  LeafAt(File(AfterLocales(c, source, w, locales, answers).files, l), p), p)
    decreases |locales|
  {
    if locales != [] {
      var n := |locales| - 1;
      AfterLocalesSound(cl, c, source, w, locales[..n], answers, l, p);
      var before := AfterLocales(c, source, w, locales[..n], answers);
      assert Justified(cl, source, answers(n));
      SavedSound(cl, c, source, File(w.files, l), before, locales[n], answers(n), l, p);
    }
  }

  lemma SavedSound(cl: M.Classes, c: Codec, source: Fields, before: Fields, w: World, m: string,
                   translated: map<Path, Json>, l: string, p: Path)
    requires Distinct(source) && Justified(cl, source, translated)
    requires Sound(cl, source, before, LeafAt(File(w.files, l), p), p)
    ensures Sound(cl, source, before, LeafAt(File(Save(w, m, Target(c, source, w, m, translated)).files, l), p), p)
  {
    if l == m { TargetSound(cl, c, source, before, w, l, translated, p); }
  }

  /** A whole run of the program, whatever the service answers: every leaf of every locale file is what
      it was before, the source's own leaf, or an element-wise validated translation of it. */
  lemma WholeRunSound(cl: M.Classes, c: Codec, source: Fields, w: World, supported: set<string>, locales: seq<string>,
                      answers: Answers, l: string, p: Path)
    requires Distinct(source) && AllJustified(cl, source, answers)
    ensures Sound(cl, source, File(w.files, l),
                  LeafAt(File(Run(c, source, w, supported, locales, answers).files, l), p), p)
  {
    AfterLocalesSound(cl, c, source, w, locales, answers, l, p);
  }

  // ----- With a service that answers well -----

  /** A text of the source that is to be translated. */
  ghost predicate SourceText(cl: M.Classes, source: Fields, text: string) {
    exists p :: LeafAt(source, p).Some? && HoldsText(cl, LeafAt(source, p).value, text)
  }

  ghost predicate HoldsText(cl: M.Classes, leaf: Json, text: string) {
    match leaf
    case Str(s) => s == text
    case List(items) => exists e :: 0 <= e < |items| && Translatable(cl, items[e]) && items[e].s == text
    case _ => false
  }

  ghost predicate NoNulls(leaf: Json) {
    leaf.List? ==> forall e :: 0 <= e < |leaf.items| ==> !leaf.items[e].Null?
  }

  /** The source is made of strings and lists without null, and the service of every chunk of every locale
      answers each text of the source, asked for alone, within three requests, and always with something
      that validates. */
  ghost predicate WellServed(cl: M.Classes, source: Fields, oracles: nat -> nat -> B.Oracle) {
    && Textual(source) && (forall p :: LeafAt(source, p).Some? ==> NoNulls(LeafAt(source, p).value))
    && forall n: nat, i: nat :: P.Serves(cl, oracles(n)(i), text => SourceText(cl, source, text))
  }

  lemma WordIsSourceText(cl: M.Classes, source: Fields, pending: seq<P.Leaf>, k: nat)
    requires Textual(source) && k < |P.Flat(cl, pending, |pending|)|
    requires forall u :: 0 <= u < |pending| ==>
               && LeafAt(source, pending[u].path).Some? && !LeafAt(source, pending[u].path).value.Obj?
               && pending[u].value == ValueOf(LeafAt(source, pending[u].path).value)
    ensures SourceText(cl, source, P.Flat(cl, pending, |pending|)[k].src)
  {
    P.FlatOk(cl, pending, |pending|, k);
    var x := P.Flat(cl, pending, |pending|)[k];
    var leaf := LeafAt(source, pending[x.u].path).value;
    if leaf.List? { assert Translatable(cl, leaf.items[x.e]) && leaf.items[x.e].s == x.src; }
    assert HoldsText(cl, leaf, x.src);
  }

  /** Every pending leaf of a locale gets all its answers. */
  lemma LocaleWellAnswered(cl: M.Classes, c: Codec, source: Fields, existing: Fields, state: Fields, size: nat,
                           oracles: nat -> nat -> B.Oracle, n: nat, key: P.Entry -> string, u: nat)
    requires Distinct(source) && 0 < size <= 0x1_0000_0000 && WellServed(cl, source, oracles)
    requires u < |PendingLeaves(c, source, existing, state)|
    ensures var pending := PendingLeaves(c, source, existing, state);
            var outs := Replies(cl, pending, size, oracles(n), key);
            WellAnswered(cl, LeafAt(source, pending[u].path).value, AnswersTo(cl, pending, outs, u))
  {
    var pending := PendingLeaves(c, source, existing, state);
    var outs := Replies(cl, pending, size, oracles(n), key);
    var flat := P.Flat(cl, pending, |pending|);
    var texts := text => SourceText(cl, source, text);
    forall k | 0 <= k < |flat| ensures texts(flat[k].src) {
      WordIsSourceText(cl, source, pending, k);
    }
    assert forall i: nat :: P.Serves(cl, oracles(n)(i), texts);
    P.EveryAnswerValidates(cl, oracles(n), key, flat, size, texts);
    AnsweredLeaf(cl, source, pending, outs, u);
  }

  lemma AnsweredLeaf(cl: M.Classes, source: Fields, pending: seq<P.Leaf>, outs: seq<Option<string>>, u: nat)
    requires u < |pending| && LeafAt(source, pending[u].path).Some? && !LeafAt(source, pending[u].path).value.Obj?
    requires pending[u].value == ValueOf(LeafAt(source, pending[u].path).value)
    requires !LeafAt(source, pending[u].path).value.Raw? && NoNulls(LeafAt(source, pending[u].path).value)
    requires P.AllAnswered(cl, P.Flat(cl, pending, |pending|), outs)
    ensures WellAnswered(cl, LeafAt(source, pending[u].path).value, AnswersTo(cl, pending, outs, u))
  {
    var v := pending[u].value;
    forall e | 0 <= e < P.Width(v) ensures P.ElementOk(cl, pending, outs, u, e) {
      if P.IsWord(cl, v, e) { P.FlatAt(cl, pending, u, e); }
    }
    ElementIff(cl, pending, outs, u, LeafAt(source, pending[u].path).value);
  }

  lemma LocaleFailsNothing(cl: M.Classes, c: Codec, source: Fields, existing: Fields, state: Fields, size: nat,
                           oracles: nat -> nat -> B.Oracle, n: nat, key: P.Entry -> string, crashed: bool,
                           translated: map<Path, Json>)
    requires Distinct(source) && 0 < size <= 0x1_0000_0000 && WellServed(cl, source, oracles)
    requires Obtained(cl, c, source, existing, state, size, oracles(n), key, crashed, translated)
    ensures !crashed && forall p :: p in CollectPending(c, source, existing, state, []) ==> p in translated
  {
    var pending := PendingLeaves(c, source, existing, state);
    var paths := CollectPending(c, source, existing, state, []);
    assert !crashed;
    forall p | p in paths ensures p in translated {
      var u :| 0 <= u < |paths| && paths[u] == p;
      LocaleWellAnswered(cl, c, source, existing, state, size, oracles, n, key, u);
      assert pending[u].path == p;
    }
  }

  /** Then a run does not crash and no leaf fails. */
  lemma NothingFails(cl: M.Classes, c: Codec, source: Fields, w: World, locales: seq<string>, n: nat, size: nat,
                     oracles: nat -> nat -> B.Oracle, key: P.Entry -> string, answers: Answers, crashed: bool)
    requires Distinct(source) && 0 < size <= 0x1_0000_0000 && WellServed(cl, source, oracles)
    requires Follows(FromService(cl, c, source, w.state, size, oracles, key), c, source, w, locales, n, answers,
                     crashed)
    ensures RunFailed(c, source, w, locales[..n], answers) == {} && !crashed
  {
    var from := FromService(cl, c, source, w.state, size, oracles, key);
    forall i: nat, existing, translated | from(i, existing, crashed, translated)
      ensures !crashed
    {
      LocaleFailsNothing(cl, c, source, existing, w.state, size, oracles, i, key, crashed, translated);
    }
    forall i: nat, existing, translated | from(i, existing, false, translated)
      ensures FailedPaths(c, source, existing, w.state, translated, []) == {}
    {
      LocaleFailsNothing(cl, c, source, existing, w.state, size, oracles, i, key, false, translated);
    }
    NoFailedPaths(from, c, source, w, locales, n, answers, crashed);
  }

  /** A way in which no locale fails anything makes no run fail. */
  lemma {:induction false} NoFailedPaths(from: Origin, c: Codec, source: Fields, w: World, locales: seq<string>, n: nat,
                                         answers: Answers, crashed: bool)
    requires Follows(from, c, source, w, locales, n, answers, crashed)
    requires forall i: nat, existing, translated :: from(i, existing, false, translated) ==>
               FailedPaths(c, source, existing, w.state, translated, []) == {}
    ensures RunFailed(c, source, w, locales[..n], answers) == {}
    decreases n
  {
    if n > 0 {
      assert LocaleFollows(from, c, source, w, locales, n - 1, answers);
      NoFailedPaths(from, c, source, w, locales, n - 1, answers, false);
      assert locales[..n][..n - 1] == locales[..n - 1];
    }
  }

  /** And each pending leaf of each locale is replaced, string by string, by its answers. */
  lemma WellServedLeaf(cl: M.Classes, c: Codec, source: Fields, w: World, locales: seq<string>, n: nat, i: nat,
                       size: nat, oracles: nat -> nat -> B.Oracle, key: P.Entry -> string, answers: Answers, u: nat)
    requires Distinct(source) && 0 < size <= 0x1_0000_0000 && WellServed(cl, source, oracles) && i < n
    requires Answering(answers)
    requires Follows(FromService(cl, c, source, w.state, size, oracles, key), c, source, w, locales, n, answers, false)
    requires u < |PendingLeaves(c, source, File(AfterLocales(c, source, w, locales[..i], answers).files, locales[i]),
                                w.state)|
    ensures var before := AfterLocales(c, source, w, locales[..i], answers);
            var pending := PendingLeaves(c, source, File(before.files, locales[i]), w.state);
            var outs := Replies(cl, pending, size, oracles(i), key);
            var after := AfterLocales(c, source, w, locales[..i + 1], answers);
            var got := LeafAt(File(after.files, locales[i]), pending[u].path);
            got.Some? &&
            IsReplacement(cl, LeafAt(source, pending[u].path).value, AnswersTo(cl, pending, outs, u), got.value)
  {
    var before := AfterLocales(c, source, w, locales[..i], answers);
    var existing := File(before.files, locales[i]);
    var pending := PendingLeaves(c, source, existing, w.state);
    assert LocaleFollows(FromService(cl, c, source, w.state, size, oracles, key), c, source, w, locales, i, answers);
    LocaleFailsNothing(cl, c, source, existing, w.state, size, oracles, i, key, false, answers(i));
    LeafReplaced(cl, c, source, before, locales[i], w.state, size, oracles(i), key, answers(i), u);
    assert locales[..i + 1][..i] == locales[..i];
    SavedLeaf(before, locales[i], Target(c, source, before, locales[i], answers(i)), pending[u].path);
  }

  lemma LeafReplaced(cl: M.Classes, c: Codec, source: Fields, before: World, l: string, state: Fields, size: nat,
                     oracles: nat -> B.Oracle, key: P.Entry -> string, translated: map<Path, Json>, u: nat)
    requires Distinct(source) && LeavesOnly(translated) && state == before.state
    requires Obtained(cl, c, source, File(before.files, l), state, size, oracles, key, false, translated)
    requires u < |PendingLeaves(c, source, File(before.files, l), state)|
    requires PendingLeaves(c, source, File(before.files, l), state)[u].path in translated
    ensures var pending := PendingLeaves(c, source, File(before.files, l), state);
            var outs := Replies(cl, pending, size, oracles, key);
            var got := LeafAt(Target(c, source, before, l, translated), pending[u].path);
            got.Some? &&
            IsReplacement(cl, LeafAt(source, pending[u].path).value, AnswersTo(cl, pending, outs, u), got.value)
  {
    var pending := PendingLeaves(c, source, File(before.files, l), state);
    LeafOutcome(c, source, before, l, translated, pending[u].path);
  }

  lemma SavedLeaf(w: World, l: string, target: Fields, p: Path)
    ensures LeafAt(File(Save(w, l, target).files, l), p) == LeafAt(target, p)
  {
    if Same(target, File(w.files, l)) { SameLeafAt(target, File(w.files, l), p); }
  }
}
