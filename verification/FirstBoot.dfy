/** Concurrent first boot: nodes create or read the instance id and two secrets in a shared store.
    Each step is one store call of one node; calls interleave freely, any call may fail and a node
    may crash between any two calls. */
module FirstBoot {
  import opened Options

  type Node = nat
  type Value = nat

  datatype Pc =
    | Start(attempt: nat)                                           // about to read the instance id
    | Reading(attempt: nat, id: Value, tokenRead: Option<Option<Value>>, saltRead: Option<Option<Value>>)
    | NeedSalt                                                      // no id: create the secrets first
    | SaltInserted
    | NeedToken(salt: Option<Value>)
    | TokenInserted(salt: Option<Value>)
    | NeedId(salt: Option<Value>, stored: Value)
    | Done(id: Value, token: Option<Value>, salt: Option<Value>)
    | Failed

  datatype Store = Store(id: Option<Value>, token: Option<Value>, salt: Option<Value>)

  /** `envSalt` holds the nodes started with the salt set in their environment. */
  datatype State = State(store: Store, pcs: map<Node, Pc>, crashed: set<Node>, envSalt: set<Node>)

  datatype Step =
    | ReadId(n: Node)
    | ReadToken(n: Node)
    | ReadSalt(n: Node)
    | ReadFails(n: Node)
    | InsertSalt(n: Node, candidate: Value)    // get_for_update: store only when absent
    | GetSalt(n: Node)
    | InsertToken(n: Node, candidate: Value)
    | GetToken(n: Node)
    | SetId(n: Node, id: Value)                // a plain put
    | Fail(n: Node)
    | Crash(n: Node)

  const MAX_RETRIES := 5

  function PcOf(s: State, n: Node): Pc {
    if n in s.pcs then s.pcs[n] else Start(1)
  }

  function Goto(s: State, n: Node, pc: Pc): State {
    s.(pcs := s.pcs[n := pc])
  }

  function Finish(pc: Pc): Pc {
    if pc.Reading? && pc.tokenRead.Some? && pc.saltRead.Some? then
      Done(pc.id, pc.tokenRead.value, pc.saltRead.value)
    else pc
  }

  function OrElse(stored: Option<Value>, candidate: Value): Option<Value> {
    if stored.Some? then stored else Some(candidate)
  }

  function Apply(s: State, step: Step): State {
    var n := step.n;
    var pc := PcOf(s, n);
    if n in s.crashed then s
    else match step
      case ReadId(_) =>
        if !pc.Start? then s
        else if s.store.id.Some? then Goto(s, n, Reading(pc.attempt, s.store.id.value, None, None))
        else Goto(s, n, if n in s.envSalt then NeedToken(None) else NeedSalt)
      case ReadToken(_) =>
        if pc.Reading? && pc.tokenRead.None? then Goto(s, n, Finish(pc.(tokenRead := Some(s.store.token)))) else s
      case ReadSalt(_) =>
        if pc.Reading? && pc.saltRead.None? then Goto(s, n, Finish(pc.(saltRead := Some(s.store.salt)))) else s
      case ReadFails(_) =>
        if pc.Start? || pc.Reading?
        then Goto(s, n, if pc.attempt < MAX_RETRIES then Start(pc.attempt + 1) else Failed)
        else s
      case InsertSalt(_, candidate) =>
        if pc.NeedSalt?
        then Goto(s, n, SaltInserted).(store := s.store.(salt := OrElse(s.store.salt, candidate)))
        else s
      case GetSalt(_) =>
        if pc.SaltInserted? then Goto(s, n, if s.store.salt.Some? then NeedToken(s.store.salt) else Failed) else s
      case InsertToken(_, candidate) =>
        if pc.NeedToken?
        then Goto(s, n, TokenInserted(pc.salt)).(store := s.store.(token := OrElse(s.store.token, candidate)))
        else s
      case GetToken(_) =>
        if pc.TokenInserted?
        then Goto(s, n, if s.store.token.Some? then NeedId(pc.salt, s.store.token.value) else Failed)
        else s
      case SetId(_, id) =>
        if pc.NeedId? then Goto(s, n, Done(id, Some(pc.stored), pc.salt)).(store := s.store.(id := Some(id))) else s
      case Fail(_) =>
        if pc.Done? then s else Goto(s, n, Failed)
      case Crash(_) =>
        s.(crashed := s.crashed + {n})
  }

  function Run(s: State, steps: seq<Step>): State {
    if steps == [] then s else Apply(Run(s, steps[..|steps| - 1]), steps[|steps| - 1])
  }

  predicate Fresh(s: State) {
    s.store == Store(None, None, None) && s.pcs == map[]
  }

  // ----- The invariant -----

  /** What a node has read or written agrees with the store. */
  predicate NodeInv(s: State, n: Node) {
    var pc := PcOf(s, n);
    && (pc.Reading? ==>
          && s.store.id.Some?
          && (pc.tokenRead.Some? ==> pc.tokenRead.value == s.store.token)
          && (s.envSalt == {} && pc.saltRead.Some? ==> pc.saltRead.value == s.store.salt))
    && (pc.SaltInserted? ==> s.store.salt.Some?)
    && (pc.NeedToken? || pc.TokenInserted? || pc.NeedId? ==>
          (s.envSalt == {} ==> pc.salt.Some? && pc.salt == s.store.salt))
    && (pc.TokenInserted? ==> s.store.token.Some?)
    && (pc.NeedId? ==> s.store.token == Some(pc.stored))
    && (pc.Done? ==>
          && pc.token.Some? && pc.token == s.store.token
          && (s.envSalt == {} ==> pc.salt.Some? && pc.salt == s.store.salt))
  }

  predicate StoreInv(s: State) {
    s.store.id.Some? ==> s.store.token.Some? && (s.envSalt == {} ==> s.store.salt.Some?)
  }

  ghost predicate Inv(s: State) {
    StoreInv(s) && forall n: Node :: NodeInv(s, n)
  }

  /** Stored secrets never change. */
  lemma StepKeepsSecrets(s: State, step: Step)
    ensures s.store.token.Some? ==> Apply(s, step).store.token == s.store.token
    ensures s.store.salt.Some? ==> Apply(s, step).store.salt == s.store.salt
    ensures Apply(s, step).envSalt == s.envSalt
  {
  }

  lemma StepKeepsNode(s: State, step: Step, m: Node)
    requires StoreInv(s) && NodeInv(s, step.n) && NodeInv(s, m)
    ensures NodeInv(Apply(s, step), m)
  {
    StepKeepsSecrets(s, step);
  }

  lemma StepKeepsInv(s: State, step: Step)
    requires Inv(s)
    ensures Inv(Apply(s, step))
  {
    assert NodeInv(s, step.n);
    forall m: Node ensures NodeInv(Apply(s, step), m) {
      StepKeepsNode(s, step, m);
    }
  }

  lemma {:induction false} RunKeepsInv(s: State, steps: seq<Step>)
    requires Fresh(s)
    ensures Inv(Run(s, steps)) && Run(s, steps).envSalt == s.envSalt
  {
    if steps != [] {
      RunKeepsInv(s, steps[..|steps| - 1]);
      StepKeepsInv(Run(s, steps[..|steps| - 1]), steps[|steps| - 1]);
      StepKeepsSecrets(Run(s, steps[..|steps| - 1]), steps[|steps| - 1]);
    }
  }

  /** Once stored, a secret stays for the rest of the run. */
  lemma {:induction false} SecretsStay(s: State, steps: seq<Step>, k: nat)
    requires k <= |steps|
    ensures Run(s, steps[..k]).store.token.Some? ==> Run(s, steps).store.token == Run(s, steps[..k]).store.token
    ensures Run(s, steps[..k]).store.salt.Some? ==> Run(s, steps).store.salt == Run(s, steps[..k]).store.salt
    decreases |steps|
  {
    if k == |steps| {
      assert steps[..k] == steps;
    } else {
      var front := steps[..|steps| - 1];
      assert front[..k] == steps[..k];
      SecretsStay(s, front, k);
      StepKeepsSecrets(Run(s, front), steps[|steps| - 1]);
    }
  }

  /** In every interleaving from an empty store: a stored id implies stored secrets, and any two
      nodes that finish hold the same stored token; when no node sets the salt itself, they hold
      the same stored salt as well. */
  lemma FirstBootAgreement(s: State, steps: seq<Step>, a: Node, b: Node)
    requires Fresh(s)
    requires PcOf(Run(s, steps), a).Done? && PcOf(Run(s, steps), b).Done?
    ensures var e := Run(s, steps);
            var pa, pb := PcOf(e, a), PcOf(e, b);
            && StoreInv(e)
            && pa.token.Some? && pa.token == pb.token == e.store.token
            && (s.envSalt == {} ==> pa.salt.Some? && pa.salt == pb.salt == e.store.salt)
  {
    RunKeepsInv(s, steps);
    var e := Run(s, steps);
    assert NodeInv(e, a) && NodeInv(e, b);
  }

  // ----- What is not promised -----

  ghost predicate Leads(s: State, e: State) {
    exists steps :: Run(s, steps) == e
  }

  lemma Then(s: State, e: State, step: Step) returns (e': State)
    requires Leads(s, e)
    ensures Leads(s, e') && e' == Apply(e, step)
  {
    var steps :| Run(s, steps) == e;
    var steps' := steps + [step];
    assert steps'[..|steps|] == steps;
    e' := Apply(e, step);
    assert Run(s, steps') == e';
  }

  lemma LeadsSelf(s: State)
    ensures Leads(s, s)
  {
    assert Run(s, []) == s;
  }

  /** Node `n`, already past the id read, creates what is missing and finishes. */
  lemma Creates(s: State, e0: State, n: Node, id: Value) returns (e: State)
    requires Leads(s, e0) && n !in e0.crashed && PcOf(e0, n).NeedToken?
    ensures Leads(s, e) && e.crashed == e0.crashed && e.envSalt == e0.envSalt
    ensures e.store == Store(Some(id), OrElse(e0.store.token, n), e0.store.salt)
    ensures PcOf(e, n) == Done(id, e.store.token, PcOf(e0, n).salt)
    ensures forall m: Node :: m != n ==> PcOf(e, m) == PcOf(e0, m)
  {
    e := Then(s, e0, InsertToken(n, n));
    e := Then(s, e, GetToken(n));
    e := Then(s, e, SetId(n, id));
  }

  lemma GetsSalt(s: State, e0: State, n: Node) returns (e: State)
    requires Leads(s, e0) && n !in e0.crashed && PcOf(e0, n).NeedSalt?
    ensures Leads(s, e) && e.crashed == e0.crashed && e.envSalt == e0.envSalt
    ensures e.store == e0.store.(salt := OrElse(e0.store.salt, n))
    ensures PcOf(e, n) == NeedToken(e.store.salt)
    ensures forall m: Node :: m != n ==> PcOf(e, m) == PcOf(e0, m)
  {
    e := Then(s, e0, InsertSalt(n, n));
    e := Then(s, e, GetSalt(n));
  }

  /** Node `n` finds an id and reads the secrets that are stored at that moment. */
  lemma Reads(s: State, e0: State, n: Node) returns (e: State)
    requires Leads(s, e0) && n !in e0.crashed && PcOf(e0, n).Start? && e0.store.id.Some?
    ensures Leads(s, e) && e == e0.(pcs := e.pcs)
    ensures PcOf(e, n) == Done(e0.store.id.value, e0.store.token, e0.store.salt)
    ensures forall m: Node :: m != n ==> PcOf(e, m) == PcOf(e0, m)
  {
    e := Then(s, e0, ReadId(n));
    e := Then(s, e, ReadToken(n));
    e := Then(s, e, ReadSalt(n));
  }

  lemma BothFindNoId(s: State, a: Node, b: Node) returns (e: State)
    requires Fresh(s) && a != b && s.crashed == {}
    ensures Leads(s, e) && e == s.(pcs := e.pcs)
    ensures PcOf(e, a) == if a in s.envSalt then NeedToken(None) else NeedSalt
    ensures PcOf(e, b) == if b in s.envSalt then NeedToken(None) else NeedSalt
    ensures forall m: Node :: m != a && m != b ==> PcOf(e, m) == Start(1)
  {
    LeadsSelf(s);
    e := Then(s, s, ReadId(a));
    e := Then(s, e, ReadId(b));
  }

  /** Node `n` fails to read `k` times in a row. */
  function FailTimes(s: State, n: Node, k: nat): State {
    if k == 0 then s else Apply(FailTimes(s, n, k - 1), ReadFails(n))
  }

  /** A node starts over after a failed read, and gives up with the fifth. */
  lemma {:induction false} FifthFailureIsFinal(s: State, n: Node, k: nat)
    requires n !in s.crashed && PcOf(s, n) == Start(1)
    ensures PcOf(FailTimes(s, n, k), n) == if k < 5 then Start(k + 1) else Failed
    ensures FailTimes(s, n, k).store == s.store && n !in FailTimes(s, n, k).crashed
  {
    if k > 0 { FifthFailureIsFinal(s, n, k - 1); }
  }

  // ----- The instance id -----

  /** The instance id is a plain put: two nodes may finish with different ids. */
  lemma InstanceIdsMayDiffer() returns (s: State, e: State)
    ensures Fresh(s) && s.envSalt == {} && Leads(s, e)
    ensures PcOf(e, 1).Done? && PcOf(e, 2).Done? && PcOf(e, 1).id != PcOf(e, 2).id
  {
    s := State(Store(None, None, None), map[], {}, {});
    e := BothFindNoId(s, 1, 2);
    e := GetsSalt(s, e, 1);
    e := Creates(s, e, 1, 10);
    e := GetsSalt(s, e, 2);
    e := Creates(s, e, 2, 20);
  }

  /** The step stores an id. */
  predicate Puts(s: State, step: Step) {
    step.SetId? && step.n !in s.crashed && PcOf(s, step.n).NeedId?
  }

  /** The ids stored during a run, overwritten ones included. */
  function PutIds(s: State, steps: seq<Step>): set<Value> {
    if steps == [] then {}
    else
      var front, last := steps[..|steps| - 1], steps[|steps| - 1];
      PutIds(s, front) + (if Puts(Run(s, front), last) then {last.id} else {})
  }

  /** A node knows an id only from a put. */
  predicate KnowsPut(s: State, n: Node, puts: set<Value>) {
    var pc := PcOf(s, n);
    pc.Reading? || pc.Done? ==> pc.id in puts
  }

  /** Some node has finished with the id. */
  ghost predicate Held(s: State, id: Value) {
    exists n: Node :: PcOf(s, n).Done? && PcOf(s, n).id == id
  }

  ghost predicate IdInv(s: State, puts: set<Value>) {
    && (s.store.id.Some? ==> s.store.id.value in puts)
    && (forall n: Node :: KnowsPut(s, n, puts))
    && (forall id :: id in puts ==> Held(s, id))
  }

  lemma StepKeepsIdInv(s: State, step: Step, puts: set<Value>)
    requires IdInv(s, puts)
    ensures IdInv(Apply(s, step), puts + (if Puts(s, step) then {step.id} else {}))
  {
    var s' := Apply(s, step);
    var puts' := puts + (if Puts(s, step) then {step.id} else {});
    forall n: Node ensures KnowsPut(s', n, puts') {
      assert KnowsPut(s, n, puts);
    }
    forall id | id in puts' ensures Held(s', id) {
      if id in puts {
        var n: Node :| PcOf(s, n).Done? && PcOf(s, n).id == id;
        assert PcOf(s', n) == PcOf(s, n);
      } else {
        assert PcOf(s', step.n).Done? && PcOf(s', step.n).id == id;
      }
    }
  }

  lemma {:induction false} RunKeepsIdInv(s: State, steps: seq<Step>)
    requires Fresh(s)
    ensures IdInv(Run(s, steps), PutIds(s, steps))
  {
    if steps != [] {
      var front := steps[..|steps| - 1];
      RunKeepsIdInv(s, front);
      StepKeepsIdInv(Run(s, front), steps[|steps| - 1], PutIds(s, front));
    }
  }

  /** The nodes that have finished hold the same id. */
  ghost predicate IdsAgree(s: State) {
    forall a: Node, b: Node :: PcOf(s, a).Done? && PcOf(s, b).Done? ==> PcOf(s, a).id == PcOf(s, b).id
  }

  ghost predicate AtMostOne(ids: set<Value>) {
    forall v, w :: v in ids && w in ids ==> v == w
  }

  /** In every run the finished nodes agree on the instance id if and only if no two different ids
      were stored during it. */
  lemma IdsAgreeIff(s: State, steps: seq<Step>)
    requires Fresh(s)
    ensures IdsAgree(Run(s, steps)) <==> AtMostOne(PutIds(s, steps))
  {
    var e, puts := Run(s, steps), PutIds(s, steps);
    RunKeepsIdInv(s, steps);
    if IdsAgree(e) {
      forall v, w | v in puts && w in puts ensures v == w {
        assert Held(e, v) && Held(e, w);
        var a: Node :| PcOf(e, a).Done? && PcOf(e, a).id == v;
        var b: Node :| PcOf(e, b).Done? && PcOf(e, b).id == w;
      }
    }
    if AtMostOne(puts) {
      forall a: Node, b: Node | PcOf(e, a).Done? && PcOf(e, b).Done? ensures PcOf(e, a).id == PcOf(e, b).id {
        assert KnowsPut(e, a, puts) && KnowsPut(e, b, puts);
        assert PcOf(e, a).id in puts && PcOf(e, b).id in puts;
      }
    }
  }

  // ----- The salt -----

  /** With the salt set on some node, two nodes without it may finish with different salts: one of
      them reads before the other one stores its own. */
  lemma MixedSaltMayDiffer(env: set<Node>, n: Node, a: Node, b: Node) returns (s: State, e: State)
    requires n in env && a !in env && b !in env && a != b
    ensures Fresh(s) && s.envSalt == env && Leads(s, e)
    ensures PcOf(e, a).Done? && PcOf(e, b).Done? && PcOf(e, a).salt == Some(a) && PcOf(e, b).salt == None
  {
    s := State(Store(None, None, None), map[], {}, env);
    e := BothFindNoId(s, n, a);
    e := Creates(s, e, n, 10);
    e := Reads(s, e, b);
    e := GetsSalt(s, e, a);
    e := Creates(s, e, a, 20);
  }

  /** In every run any two finished nodes that do not set the salt hold the same one. */
  ghost predicate SaltsAgree(env: set<Node>) {
    forall s: State, steps: seq<Step>, a: Node, b: Node ::
      Fresh(s) && s.envSalt == env && a !in env && b !in env ==> SameSalt(Run(s, steps), a, b)
  }

  predicate SameSalt(e: State, a: Node, b: Node) {
    PcOf(e, a).Done? && PcOf(e, b).Done? ==> PcOf(e, a).salt == PcOf(e, b).salt
  }

  lemma {:induction false} NodeOutside(env: set<Node>) returns (n: Node)
    ensures forall m :: m in env ==> m < n
    decreases |env|
  {
    if env == {} {
      n := 0;
    } else {
      var m :| m in env;
      var rest := env - {m};
      var k := NodeOutside(rest);
      n := if k <= m then m + 1 else k;
      forall x | x in env ensures x < n {
        if x != m { assert x in rest; }
      }
    }
  }

  /** All runs agree on the salt if and only if no node sets it. */
  lemma SaltsAgreeIff(env: set<Node>)
    ensures SaltsAgree(env) <==> env == {}
  {
    if env == {} {
      forall s: State, steps: seq<Step>, a: Node, b: Node | Fresh(s) && s.envSalt == env
        ensures SameSalt(Run(s, steps), a, b)
      {
        if PcOf(Run(s, steps), a).Done? && PcOf(Run(s, steps), b).Done? { FirstBootAgreement(s, steps, a, b); }
      }
    } else {
      var n :| n in env;
      var a := NodeOutside(env);
      var s, e := MixedSaltMayDiffer(env, n, a, a + 1);
      var steps :| Run(s, steps) == e;
      assert !SameSalt(Run(s, steps), a, a + 1);
    }
  }
}
