/** The coverage scorer: for every operation, what the specification asks for (the goal)
    and what one iteration's responses showed (the seed), the level ladder that compares
    them, the strict-mode level-7 rule, and the pointwise-max merge that decides whether
    an iteration improved coverage. Go keeps the criteria as counting maps; only their
    key sets are ever read, so the model keeps sets. */
module Analyzer {
  import opened Values
  import opened Base
  import opened Api
  import Text
  import Mutator

  datatype Criteria = Criteria(
    inTypes: set<string>,
    params: set<string>,
    outTypes: set<string>,
    classes: set<int>,
    codes: set<int>,
    props: set<string>)

  const Empty := Criteria({}, {}, {}, {}, {}, {})

  /** An operation: a path and an HTTP method. */
  datatype Op = Op(path: string, verb: string)

  /** `a` out of `b` reaches the 0.5 threshold; nothing to reach counts as reached. */
  function WithinThresholds(a: nat, b: nat): (r: bool)
    ensures b == 0 ==> r
    ensures b > 0 ==> (r <==> (a as real) / (b as real) >= 0.5)
  {
    b == 0 || 2 * a >= b
  }

  // ---------------------------------------------------------------- goals

  function ParamNames(ps: seq<Param>): set<string> {
    set i | 0 <= i < |ps| :: ps[i].name
  }

  /** {"json"} when some media type mentions JSON. */
  function JsonTypes(cs: seq<Content>): set<string> {
    if exists i :: 0 <= i < |cs| && IsJson(cs[i].mediaType) then {"json"} else {}
  }

  /** The JSON keys of an example; a missing example has none. */
  function KeysOf(ex: Option<Value>, x: Externals): seq<string> {
    match ex
    case Some(v) => x.exampleKeys(v)
    case None => []
  }

  function ExampleKeys(cs: seq<Content>, x: Externals): set<string> {
    set i, k | 0 <= i < |cs| && k in KeysOf(cs[i].example, x) :: k
  }

  predicate MissingExample(cs: seq<Content>) {
    exists i :: 0 <= i < |cs| && cs[i].example.None?
  }

  /** The criteria an operation asks for. Strict mode rejects a missing example and a
      response code that is not a number. */
  function Goal(item: PathItem, op: Operation, strict: bool, x: Externals): (r: Result<Criteria>)
    ensures r.Success? && op.body.None? ==>
      r.value.inTypes == {} && r.value.params == ParamNames(item.params + op.params)
    ensures r.Success? && op.body.Some? ==>
      r.value.inTypes == JsonTypes(op.body.value) && r.value.params == ExampleKeys(op.body.value, x)
    ensures r.Success? && DeclaresExcluded(op.responses) ==>
      r.value.outTypes == {} && r.value.classes == {} && r.value.codes == {} && r.value.props == {}
    ensures r.Success? && !DeclaresExcluded(op.responses) ==>
      forall c :: c in op.responses && Text.Atoi(c).ok ==>
        Text.Atoi(c).value in r.value.codes && Text.Quo(Text.Atoi(c).value, 100) in r.value.classes
    ensures r.Success? && strict && !DeclaresExcluded(op.responses) ==> forall c :: c in op.responses ==> Text.Atoi(c).ok
    ensures r.Success? && strict && op.body.Some? ==> !MissingExample(op.body.value)
    ensures r.Failure? ==> strict
  {
    var rs := op.responses;
    if strict && op.body.Some? && MissingExample(op.body.value) then Failure("no example for a request body")
    else if DeclaresExcluded(rs) then
      Success(Criteria(
        if op.body.None? then {} else JsonTypes(op.body.value),
        if op.body.None? then ParamNames(item.params + op.params) else ExampleKeys(op.body.value, x),
        {}, {}, {}, {}))
    else if strict && exists c :: c in rs && !Text.Atoi(c).ok then Failure("strconv.Atoi: invalid response code")
    else if strict && exists c :: c in rs && MissingExample(rs[c].content) then Failure("no example for a response")
    else
      Success(Criteria(
        if op.body.None? then {} else JsonTypes(op.body.value),
        if op.body.None? then ParamNames(item.params + op.params) else ExampleKeys(op.body.value, x),
        if exists c :: c in rs && JsonTypes(rs[c].content) != {} then {"json"} else {},
        set c | c in rs :: Text.Quo(Text.Atoi(c).value, 100),
        set c | c in rs :: Text.Atoi(c).value,
        set c, k | c in rs && k in ExampleKeys(rs[c].content, x) :: k))
  }

  /** The response half of a goal that succeeds without an excluded code. */
  lemma GoalOutputs(item: PathItem, op: Operation, strict: bool, x: Externals)
    requires Goal(item, op, strict, x).Success? && !DeclaresExcluded(op.responses)
    ensures var g, rs := Goal(item, op, strict, x).value, op.responses;
      g.codes == (set c | c in rs :: Text.Atoi(c).value) &&
      g.classes == (set c | c in rs :: Text.Quo(Text.Atoi(c).value, 100)) &&
      g.outTypes == (if exists c :: c in rs && JsonTypes(rs[c].content) != {} then {"json"} else {}) &&
      g.props == set c, k | c in rs && k in ExampleKeys(rs[c].content, x) :: k
  {
  }

  /** Without an excluded code, the response criteria are exactly what the responses
      declare: their codes (0 for a code that is not a number, outside strict mode), the
      hundreds of those codes, "json" when some response content is JSON, and the keys
      of every response example. */
  lemma GoalResponses(item: PathItem, op: Operation, strict: bool, x: Externals)
    requires Goal(item, op, strict, x).Success? && !DeclaresExcluded(op.responses)
    ensures var g, rs := Goal(item, op, strict, x).value, op.responses;
      (forall n :: n in g.codes <==> exists c :: c in rs && Text.Atoi(c).value == n) &&
      (forall n :: n in g.classes <==> exists c :: c in rs && Text.Quo(Text.Atoi(c).value, 100) == n) &&
      (g.outTypes == if exists c, i :: c in rs && 0 <= i < |rs[c].content| && IsJson(rs[c].content[i].mediaType)
                     then {"json"} else {}) &&
      (forall k :: k in g.props <==>
        exists c, i :: c in rs && 0 <= i < |rs[c].content| && k in KeysOf(rs[c].content[i].example, x))
  {
    GoalOutputs(item, op, strict, x);
    OutputsMeaning(op.responses, x, Goal(item, op, strict, x).value);
  }

  /** The response criteria, built as in Goal, read back response by response. */
  lemma OutputsMeaning(rs: map<string, Response>, x: Externals, g: Criteria)
    requires g.codes == (set c | c in rs :: Text.Atoi(c).value)
    requires g.classes == (set c | c in rs :: Text.Quo(Text.Atoi(c).value, 100))
    requires g.outTypes == (if exists c :: c in rs && JsonTypes(rs[c].content) != {} then {"json"} else {})
    requires g.props == set c, k | c in rs && k in ExampleKeys(rs[c].content, x) :: k
    ensures forall n :: n in g.codes <==> exists c :: c in rs && Text.Atoi(c).value == n
    ensures forall n :: n in g.classes <==> exists c :: c in rs && Text.Quo(Text.Atoi(c).value, 100) == n
    ensures g.outTypes == if exists c, i :: c in rs && 0 <= i < |rs[c].content| && IsJson(rs[c].content[i].mediaType)
                          then {"json"} else {}
    ensures forall k :: k in g.props <==>
      exists c, i :: c in rs && 0 <= i < |rs[c].content| && k in KeysOf(rs[c].content[i].example, x)
  {
    forall k | k in g.props
      ensures exists c, i :: c in rs && 0 <= i < |rs[c].content| && k in KeysOf(rs[c].content[i].example, x)
    {
      var c :| c in rs && k in ExampleKeys(rs[c].content, x);
      var i :| 0 <= i < |rs[c].content| && k in KeysOf(rs[c].content[i].example, x);
    }
    forall k, c, i | c in rs && 0 <= i < |rs[c].content| && k in KeysOf(rs[c].content[i].example, x)
      ensures k in g.props
    {
      assert k in ExampleKeys(rs[c].content, x);
    }
  }

  function DocOps(doc: Doc): set<Op> {
    set p, v | p in doc && v in doc[p].ops :: Op(p, v)
  }

  function GoalOf(doc: Doc, op: Op, strict: bool, x: Externals): Result<Criteria>
    requires op in DocOps(doc)
  {
    Goal(doc[op.path], doc[op.path].ops[op.verb], strict, x)
  }

  /** The goals of every operation of the document. */
  function Goals(doc: Doc, strict: bool, x: Externals): (r: Result<map<Op, Criteria>>)
    ensures r.Success? ==> r.value.Keys == DocOps(doc)
    ensures r.Success? ==> forall op :: op in DocOps(doc) ==> GoalOf(doc, op, strict, x) == Success(r.value[op])
    ensures !strict ==> r.Success?
  {
    if exists op :: op in DocOps(doc) && GoalOf(doc, op, strict, x).Failure? then Failure("invalid goal")
    else Success(map op | op in DocOps(doc) :: GoalOf(doc, op, strict, x).value)
  }

  // ---------------------------------------------------------------- seeds

  /** What one sent request and its response showed. */
  datatype Info = Info(node: Node, code: int, typ: string, body: string)

  function OpOf(info: Info): Op {
    Op(info.node.path, info.node.verb)
  }

  function LeafKeys(ls: seq<Mutator.Leaf>): set<string> {
    set i | 0 <= i < |ls| :: ls[i].key
  }

  function RequestTypes(reqs: seq<Request>): set<string> {
    if exists i :: 0 <= i < |reqs| && IsJson(reqs[i].typ) then {"json"} else {}
  }

  /** The criteria one response meets. */
  function SeedOf(info: Info, x: Externals): (r: Result<Criteria>)
    ensures r.Success? ==> r.value.codes == {info.code} && r.value.classes == {Text.Quo(info.code, 100)}
    ensures r.Success? ==> (r.value.outTypes == {"json"} <==> IsJson(info.typ))
  {
    match Mutator.FlattenAll(info.node.requests, |info.node.requests|)
    case Failure(e) => Failure(e)
    case Success(leaves) =>
      Success(Criteria(
        RequestTypes(info.node.requests),
        LeafKeys(leaves),
        if IsJson(info.typ) then {"json"} else {},
        {Text.Quo(info.code, 100)},
        {info.code},
        set k | k in x.bodyKeys(info.body)))
  }

  function Union(a: Criteria, b: Criteria): Criteria {
    Criteria(a.inTypes + b.inTypes, a.params + b.params, a.outTypes + b.outTypes,
             a.classes + b.classes, a.codes + b.codes, a.props + b.props)
  }

  lemma UnionCommutes(a: Criteria, b: Criteria)
    ensures Union(a, b) == Union(b, a)
  {
  }

  lemma UnionEmpty(a: Criteria)
    ensures Union(Empty, a) == a
  {
  }

  predicate Within(a: Criteria, b: Criteria) {
    a.inTypes <= b.inTypes && a.params <= b.params && a.outTypes <= b.outTypes &&
    a.classes <= b.classes && a.codes <= b.codes && a.props <= b.props
  }

  /** The seeds after the first `n` responses: the criteria of one operation are merged. */
  function SeedsSpec(infos: seq<Info>, n: nat, x: Externals): Result<map<Op, Criteria>>
    requires n <= |infos|
  {
    if n == 0 then Success(map[])
    else
      match SeedsSpec(infos, n - 1, x)
      case Failure(e) => Failure(e)
      case Success(m) =>
        var op := OpOf(infos[n - 1]);
        match SeedOf(infos[n - 1], x)
        case Failure(e) => Failure(e)
        case Success(c) => Success(m[op := if op in m then Union(c, m[op]) else c])
  }

  /** The seed criteria, one response after the other. */
  method Seeds(infos: seq<Info>, x: Externals) returns (r: Result<map<Op, Criteria>>)
    ensures r == SeedsSpec(infos, |infos|, x)
  {
    var seeds: map<Op, Criteria> := map[];
    var n := 0;
    while n < |infos|
      invariant 0 <= n <= |infos|
      invariant SeedsSpec(infos, n, x) == Success(seeds)
    {
      var info := infos[n];
      var c := SeedOf(info, x);
      if c.Failure? {
        SeedsFail(infos, n + 1, |infos|, x);
        return Failure(c.error);
      }
      var op := OpOf(info);
      var merged := c.value;
      if op in seeds {
        merged := Union(merged, seeds[op]);
      }
      seeds := seeds[op := merged];
      n := n + 1;
    }
    r := Success(seeds);
  }

  lemma {:induction false} SeedsFail(infos: seq<Info>, k: nat, m: nat, x: Externals)
    requires k <= m <= |infos| && SeedsSpec(infos, k, x).Failure?
    ensures SeedsSpec(infos, m, x) == SeedsSpec(infos, k, x)
    decreases m - k
  {
    if k < m {
      SeedsFail(infos, k, m - 1, x);
    }
  }

  /** The union of what the responses to `op` among the first `n` met, operation by
      operation: the reference the merged seeds are measured against. */
  function UnionOf(infos: seq<Info>, n: nat, op: Op, x: Externals): Criteria
    requires n <= |infos|
  {
    if n == 0 then Empty
    else
      var rest := UnionOf(infos, n - 1, op, x);
      var c := SeedOf(infos[n - 1], x);
      if OpOf(infos[n - 1]) == op && c.Success? then Union(rest, c.value) else rest
  }

  /** Every response's criteria are part of the union for its operation. */
  lemma {:induction false} UnionOfCovers(infos: seq<Info>, n: nat, op: Op, x: Externals, i: nat)
    requires i < n <= |infos| && OpOf(infos[i]) == op && SeedOf(infos[i], x).Success?
    ensures Within(SeedOf(infos[i], x).value, UnionOf(infos, n, op, x))
    decreases n
  {
    if i < n - 1 {
      UnionOfCovers(infos, n - 1, op, x, i);
    }
  }

  /** An operation no response was for has an empty union. */
  lemma {:induction false} UnionOfUnseen(infos: seq<Info>, n: nat, op: Op, x: Externals)
    requires n <= |infos| && forall i :: 0 <= i < n ==> OpOf(infos[i]) != op
    ensures UnionOf(infos, n, op, x) == Empty
    decreases n
  {
    if n > 0 {
      UnionOfUnseen(infos, n - 1, op, x);
    }
  }

  /** The merged seeds hold exactly the operations that were sent. */
  lemma {:induction false} SeedsKeys(infos: seq<Info>, n: nat, x: Externals)
    requires n <= |infos| && SeedsSpec(infos, n, x).Success?
    ensures forall op :: op in SeedsSpec(infos, n, x).value <==> exists i :: 0 <= i < n && OpOf(infos[i]) == op
    decreases n
  {
    if n > 0 {
      SeedsKeys(infos, n - 1, x);
      var m := SeedsSpec(infos, n - 1, x).value;
      var m' := SeedsSpec(infos, n, x).value;
      assert m'.Keys == m.Keys + {OpOf(infos[n - 1])};
      forall o ensures o in m' <==> exists i :: 0 <= i < n && OpOf(infos[i]) == o {
        if o in m' && o != OpOf(infos[n - 1]) {
          var i :| 0 <= i < n - 1 && OpOf(infos[i]) == o;
        }
      }
    }
  }

  /** The seed of each operation is the union of what its responses met, whatever order
      they came in. */
  lemma {:induction false} SeedsAreUnions(infos: seq<Info>, n: nat, x: Externals)
    requires n <= |infos| && SeedsSpec(infos, n, x).Success?
    ensures forall op :: op in SeedsSpec(infos, n, x).value ==> SeedsSpec(infos, n, x).value[op] == UnionOf(infos, n, op, x)
    decreases n
  {
    if n > 0 {
      SeedsAreUnions(infos, n - 1, x);
      var m := SeedsSpec(infos, n - 1, x).value;
      var op := OpOf(infos[n - 1]);
      var c := SeedOf(infos[n - 1], x).value;
      var m' := SeedsSpec(infos, n, x).value;
      assert m' == m[op := if op in m then Union(c, m[op]) else c];
      forall o | o in m'
        ensures m'[o] == UnionOf(infos, n, o, x)
      {
        if o == op {
          assert UnionOf(infos, n, op, x) == Union(UnionOf(infos, n - 1, op, x), c);
          if op !in m {
            SeedsKeys(infos, n - 1, x);
            UnionOfUnseen(infos, n - 1, op, x);
            UnionEmpty(c);
          } else {
            UnionCommutes(c, m[op]);
          }
        } else {
          assert UnionOf(infos, n, o, x) == UnionOf(infos, n - 1, o, x);
        }
      }
    }
  }

  /** Each response's criteria are part of the seed of its operation. */
  lemma SeedsCover(infos: seq<Info>, x: Externals, i: nat)
    requires i < |infos| && SeedsSpec(infos, |infos|, x).Success? && SeedOf(infos[i], x).Success?
    ensures OpOf(infos[i]) in SeedsSpec(infos, |infos|, x).value
    ensures Within(SeedOf(infos[i], x).value, SeedsSpec(infos, |infos|, x).value[OpOf(infos[i])])
  {
    SeedsKeys(infos, |infos|, x);
    SeedsAreUnions(infos, |infos|, x);
    UnionOfCovers(infos, |infos|, OpOf(infos[i]), x, i);
  }

  // ---------------------------------------------------------------- the ladder

  /** The first check that fails decides the level: a missing input or output type 2, too
      few parameters 3, a missing status class other than 3xx and 5xx 3, a missing code 4,
      too few response properties 5; passing everything gives 6. */
  function LadderSpec(goal: Criteria, seed: Criteria): (level: int)
    ensures 2 <= level <= 6
  {
    if !(goal.inTypes <= seed.inTypes) || !(goal.outTypes <= seed.outTypes) then 2
    else if !WithinThresholds(|goal.params * seed.params|, |goal.params|) then 3
    else if !(goal.classes - {3, 5} <= seed.classes) then 3
    else if !(goal.codes <= seed.codes) then 4
    else if !WithinThresholds(|goal.props * seed.props|, |goal.props|) then 5
    else 6
  }

  lemma CountStep<T>(g: set<T>, rest: set<T>, s: set<T>, t: T)
    requires rest <= g && t in rest
    ensures g - (rest - {t}) == (g - rest) + {t} && t !in g - rest
    ensures (g - (rest - {t})) * s == if t in s then ((g - rest) * s) + {t} else (g - rest) * s
  {
  }

  /** How many of `g` are in `s`, one element at a time. */
  method CountIn<T>(g: set<T>, s: set<T>) returns (total: nat, exist: nat)
    ensures total == |g| && exist == |g * s|
  {
    total, exist := 0, 0;
    var rest := g;
    while rest != {}
      invariant rest <= g
      invariant total == |g - rest| && exist == |(g - rest) * s|
      decreases rest
    {
      var t :| t in rest;
      CountStep(g, rest, s, t);
      total := total + 1;
      if t in s {
        exist := exist + 1;
      }
      rest := rest - {t};
    }
    assert g - rest == g;
  }

  /** Whether every element of `g` is in `s`, leaving the loop at the first that is not. */
  method AllIn<T>(g: set<T>, s: set<T>) returns (ok: bool)
    ensures ok <==> g <= s
  {
    ok := true;
    var rest := g;
    while ok && rest != {}
      invariant rest <= g
      invariant ok ==> g - rest <= s
      invariant !ok ==> !(g <= s)
      decreases rest
    {
      var t :| t in rest;
      if t !in s {
        ok := false;
      }
      rest := rest - {t};
    }
  }

  /** The ladder as the scorer walks it, with its `next` flag. */
  method Ladder(goal: Criteria, seed: Criteria) returns (level: int)
    ensures level == LadderSpec(goal, seed)
  {
    var next := true;
    level := 0;

    var ok := AllIn(goal.inTypes, seed.inTypes);
    if !ok {
      level, next := 2, false;
    }
    if next {
      ok := AllIn(goal.outTypes, seed.outTypes);
      if !ok {
        level, next := 2, false;
      }
    }

    if next {
      var total, exist := CountIn(goal.params, seed.params);
      if !WithinThresholds(exist, total) {
        level, next := 3, false;
      }
    }

    if next {
      ok := AllIn(goal.classes - {3, 5}, seed.classes);
      if !ok {
        level, next := 3, false;
      }
    }

    if next {
      ok := AllIn(goal.codes, seed.codes);
      if !ok {
        level, next := 4, false;
      }
    }

    if next {
      var total, exist := CountIn(goal.props, seed.props);
      if !WithinThresholds(exist, total) {
        level, next := 5, false;
      }
    }

    if next {
      level := 6;
    }
  }

  lemma CardIntersect<T>(g: set<T>, s: set<T>, s': set<T>)
    requires s <= s'
    ensures |g * s| <= |g * s'|
  {
    assert g * s <= g * s';
    SubsetCard(g * s, g * s');
  }

  lemma {:induction false} SubsetCard<T>(a: set<T>, b: set<T>)
    requires a <= b
    ensures |a| <= |b|
    decreases |b|
  {
    if a != {} {
      var t :| t in a;
      SubsetCard(a - {t}, b - {t});
    }
  }

  /** A seed that meets more never scores lower. */
  lemma LadderMonotone(goal: Criteria, seed: Criteria, seed': Criteria)
    requires Within(seed, seed')
    ensures LadderSpec(goal, seed) <= LadderSpec(goal, seed')
  {
    CardIntersect(goal.params, seed.params, seed'.params);
    CardIntersect(goal.props, seed.props, seed'.props);
  }

  /** Meeting everything the goal asks for scores 6. */
  lemma FullSeedScoresSix(goal: Criteria, seed: Criteria)
    requires Within(goal, seed)
    ensures LadderSpec(goal, seed) == 6
  {
    assert goal.params * seed.params == goal.params;
    assert goal.props * seed.props == goal.props;
  }

  // ---------------------------------------------------------------- the vector

  /** The operations of `path` among `verbs`, in that order, that have a goal. */
  function PathOps(path: string, verbs: seq<string>, goals: map<Op, Criteria>): (r: seq<Op>)
    ensures forall k :: 0 <= k < |r| ==> r[k].path == path && r[k] in goals
    decreases |verbs|
  {
    if verbs == [] then []
    else
      var v := verbs[|verbs| - 1];
      PathOps(path, verbs[..|verbs| - 1], goals) + (if Op(path, v) in goals then [Op(path, v)] else [])
  }

  lemma PathOpsSnoc(path: string, verbs: seq<string>, v: string, goals: map<Op, Criteria>)
    ensures PathOps(path, verbs + [v], goals) ==
      PathOps(path, verbs, goals) + (if Op(path, v) in goals then [Op(path, v)] else [])
  {
    assert (verbs + [v])[..|verbs|] == verbs;
  }

  /** The operations in vector order: sorted paths, then the fixed method order. */
  function AllOps(paths: seq<string>, goals: map<Op, Criteria>): (r: seq<Op>)
    ensures forall k :: 0 <= k < |r| ==> r[k] in goals
    decreases |paths|
  {
    if paths == [] then []
    else AllOps(paths[..|paths| - 1], goals) + PathOps(paths[|paths| - 1], MethodOrder, goals)
  }

  function SeedFor(seeds: map<Op, Criteria>, op: Op): Criteria {
    if op in seeds then seeds[op] else Empty
  }

  /** The ladder level of each of `ops`, one after the other. */
  function LevelsSpec(goals: map<Op, Criteria>, seeds: map<Op, Criteria>, ops: seq<Op>): (m: map<Op, int>)
    requires forall k :: 0 <= k < |ops| ==> ops[k] in goals
    ensures forall op :: op in m <==> op in ops
    ensures forall op :: op in m ==> 2 <= m[op] <= 6
    decreases |ops|
  {
    if ops == [] then map[]
    else
      var op := ops[|ops| - 1];
      LevelsSpec(goals, seeds, ops[..|ops| - 1])[op := LadderSpec(goals[op], SeedFor(seeds, op))]
  }

  /** The levels hold exactly the operations visited, each scored by the ladder against
      its seed (an empty seed when no response reached it). */
  lemma {:induction false} LevelsMeaning(goals: map<Op, Criteria>, seeds: map<Op, Criteria>, ops: seq<Op>)
    requires forall k :: 0 <= k < |ops| ==> ops[k] in goals
    ensures forall op :: op in LevelsSpec(goals, seeds, ops) ==>
      op in goals && LevelsSpec(goals, seeds, ops)[op] == LadderSpec(goals[op], SeedFor(seeds, op))
    decreases |ops|
  {
    if ops != [] {
      var pre := ops[..|ops| - 1];
      LevelsMeaning(goals, seeds, pre);
    }
  }

  /** Whether the flows of a POST path allow level 7: every flow naming a path must have
      reached level 6; a flow naming an operation without a level panics. */
  function CheckFlows(levels: map<Op, int>, flows: seq<Flow>): (r: Result<bool>)
    ensures (forall i :: 0 <= i < |flows| ==> flows[i].path == "") ==> r == Success(true)
    ensures r == Success(true) ==> forall i :: 0 <= i < |flows| && flows[i].path != "" ==>
      Op(flows[i].path, flows[i].verb) in levels && levels[Op(flows[i].path, flows[i].verb)] >= 6
    decreases |flows|
  {
    if flows == [] then Success(true)
    else if flows[0].path == "" then CheckFlows(levels, flows[1..])
    else
      var op := Op(flows[0].path, flows[0].verb);
      if op !in levels then
        Failure("Invalid: wrong order of sending paths [" + flows[0].verb + "] " + flows[0].path)
      else if levels[op] < 6 then Success(false)
      else CheckFlows(levels, flows[1..])
  }

  /** The level-7 rule for one operation: in strict mode every method of a path with a
      POST is lifted when the path's flows allow it. */
  function Promote(levels: map<Op, int>, op: Op, strict: bool, doc: Doc, posts: map<string, seq<Flow>>)
    : (r: Result<map<Op, int>>)
    ensures r.Success? ==> r.value.Keys == levels.Keys
    ensures r.Success? ==> forall o :: o in levels && o != op ==> r.value[o] == levels[o]
    ensures r.Success? && op in levels ==> r.value[op] == levels[op] || r.value[op] == 7
    ensures !strict ==> r == Success(levels)
  {
    if strict && op.path in doc && "POST" in doc[op.path].ops then
      if op.path !in posts then Failure("nil posts entry: " + op.path)
      else
        match CheckFlows(levels, posts[op.path])
        case Failure(e) => Failure(e)
        case Success(ok) => Success(if ok && op in levels then levels[op := 7] else levels)
    else Success(levels)
  }

  datatype Walked = Walked(levels: map<Op, int>, vector: seq<int>)

  /** The vector after the first operations, and the levels as the rule left them. */
  function Walk(ops: seq<Op>, levels: map<Op, int>, strict: bool, doc: Doc, posts: map<string, seq<Flow>>)
    : (r: Result<Walked>)
    requires forall k :: 0 <= k < |ops| ==> ops[k] in levels
    ensures r.Success? ==> |r.value.vector| == |ops| && r.value.levels.Keys == levels.Keys
    decreases |ops|
  {
    if ops == [] then Success(Walked(levels, []))
    else
      var op := ops[|ops| - 1];
      match Walk(ops[..|ops| - 1], levels, strict, doc, posts)
      case Failure(e) => Failure(e)
      case Success(w) =>
        match Promote(w.levels, op, strict, doc, posts)
        case Failure(e) => Failure(e)
        case Success(l) => Success(Walked(l, w.vector + [l[op]]))
  }

  /** Every entry of the vector is a ladder level or 7. */
  lemma {:induction false} WalkRange(ops: seq<Op>, levels: map<Op, int>, strict: bool, doc: Doc, posts: map<string, seq<Flow>>)
    requires forall k :: 0 <= k < |ops| ==> ops[k] in levels
    requires forall o :: o in levels ==> 2 <= levels[o] <= 6
    requires Walk(ops, levels, strict, doc, posts).Success?
    ensures forall o :: o in Walk(ops, levels, strict, doc, posts).value.levels ==>
      2 <= Walk(ops, levels, strict, doc, posts).value.levels[o] <= 7
    ensures forall k :: 0 <= k < |ops| ==> 2 <= Walk(ops, levels, strict, doc, posts).value.vector[k] <= 7
    decreases |ops|
  {
    if ops != [] {
      WalkRange(ops[..|ops| - 1], levels, strict, doc, posts);
    }
  }

  /** Outside strict mode the vector is the ladder levels, in vector order. */
  lemma {:induction false} WalkNonStrict(ops: seq<Op>, levels: map<Op, int>, doc: Doc, posts: map<string, seq<Flow>>)
    requires forall k :: 0 <= k < |ops| ==> ops[k] in levels
    ensures Walk(ops, levels, false, doc, posts).Success?
    ensures Walk(ops, levels, false, doc, posts).value.levels == levels
    ensures forall k :: 0 <= k < |ops| ==> Walk(ops, levels, false, doc, posts).value.vector[k] == levels[ops[k]]
    decreases |ops|
  {
    if ops != [] {
      WalkNonStrict(ops[..|ops| - 1], levels, doc, posts);
    }
  }

  /** In strict mode an operation of a path with a POST whose flows all name operations
      already at level 6 or above (or name no path at all) is scored 7. */
  lemma PromoteToSeven(levels: map<Op, int>, op: Op, doc: Doc, posts: map<string, seq<Flow>>)
    requires op in levels && op.path in doc && "POST" in doc[op.path].ops && op.path in posts
    requires forall i :: 0 <= i < |posts[op.path]| && posts[op.path][i].path != "" ==>
      Op(posts[op.path][i].path, posts[op.path][i].verb) in levels &&
      levels[Op(posts[op.path][i].path, posts[op.path][i].verb)] >= 6
    ensures Promote(levels, op, true, doc, posts) == Success(levels[op := 7])
  {
    FlowsPass(levels, posts[op.path]);
  }

  lemma {:induction false} FlowsPass(levels: map<Op, int>, flows: seq<Flow>)
    requires forall i :: 0 <= i < |flows| && flows[i].path != "" ==>
      Op(flows[i].path, flows[i].verb) in levels && levels[Op(flows[i].path, flows[i].verb)] >= 6
    ensures CheckFlows(levels, flows) == Success(true)
    decreases |flows|
  {
    if flows != [] {
      FlowsPass(levels, flows[1..]);
    }
  }

  /** What the scorer reads besides the responses. */
  datatype Scorer = Scorer(doc: Doc, sortedPaths: seq<string>, strict: bool,
                           posts: map<string, seq<Flow>>, methods: int, x: Externals)

  /** getCoverageLevels: the level of every operation, in vector order. */
  function CoverageSpec(sc: Scorer, infos: seq<Info>): Result<seq<int>> {
    match Goals(sc.doc, sc.strict, sc.x)
    case Failure(e) => Failure(e)
    case Success(goals) =>
      match SeedsSpec(infos, |infos|, sc.x)
      case Failure(e) => Failure(e)
      case Success(seeds) =>
        var ops := AllOps(sc.sortedPaths, goals);
        match Walk(ops, LevelsSpec(goals, seeds, ops), sc.strict, sc.doc, sc.posts)
        case Failure(e) => Failure(e)
        case Success(w) =>
          if |w.vector| != sc.methods then Failure("Invalid get levels.") else Success(w.vector)
  }

  /** A coverage vector has one entry per operation, each a level from 2 to 7, and
      outside strict mode no entry is 7. */
  lemma CoverageRange(sc: Scorer, infos: seq<Info>)
    requires CoverageSpec(sc, infos).Success?
    ensures |CoverageSpec(sc, infos).value| == sc.methods
    ensures forall k :: 0 <= k < |CoverageSpec(sc, infos).value| ==> 2 <= CoverageSpec(sc, infos).value[k] <= 7
    ensures !sc.strict ==> forall k :: 0 <= k < |CoverageSpec(sc, infos).value| ==> CoverageSpec(sc, infos).value[k] <= 6
  {
    var goals := Goals(sc.doc, sc.strict, sc.x).value;
    var seeds := SeedsSpec(infos, |infos|, sc.x).value;
    var ops := AllOps(sc.sortedPaths, goals);
    var levels := LevelsSpec(goals, seeds, ops);
    WalkRange(ops, levels, sc.strict, sc.doc, sc.posts);
    if !sc.strict {
      WalkNonStrict(ops, levels, sc.doc, sc.posts);
    }
  }

  /** The ladder level of every operation, in vector order. */
  method LadderLevels(goals: map<Op, Criteria>, seeds: map<Op, Criteria>, paths: seq<string>)
    returns (levels: map<Op, int>)
    ensures levels == LevelsSpec(goals, seeds, AllOps(paths, goals))
  {
    levels := map[];
    var i := 0;
    while i < |paths|
      invariant 0 <= i <= |paths|
      invariant levels == LevelsSpec(goals, seeds, AllOps(paths[..i], goals))
    {
      assert paths[..i + 1][..i] == paths[..i];
      levels := PathLevels(goals, seeds, paths[i], MethodOrder, AllOps(paths[..i], goals), levels);
      i := i + 1;
    }
    assert paths[..i] == paths;
  }

  /** The ladder levels of one path's operations, taken in the order of `verbs`, added
      to those already scored. */
  method PathLevels(goals: map<Op, Criteria>, seeds: map<Op, Criteria>, path: string, verbs: seq<string>,
                    ghost done: seq<Op>, levels0: map<Op, int>)
    returns (levels: map<Op, int>)
    requires forall k :: 0 <= k < |done| ==> done[k] in goals
    requires levels0 == LevelsSpec(goals, seeds, done)
    ensures levels == LevelsSpec(goals, seeds, done + PathOps(path, verbs, goals))
  {
    levels := levels0;
    var j := 0;
    assert done + PathOps(path, verbs[..0], goals) == done;
    while j < |verbs|
      invariant 0 <= j <= |verbs|
      invariant levels == LevelsSpec(goals, seeds, done + PathOps(path, verbs[..j], goals))
    {
      var op := Op(path, verbs[j]);
      PathLevelsStep(goals, seeds, path, verbs, done, j);
      if op in goals {
        var level := Ladder(goals[op], SeedFor(seeds, op));
        levels := levels[op := level];
      }
      j := j + 1;
    }
    assert verbs[..j] == verbs;
  }

  /** One method of the path: the levels gain that operation's ladder level when it has
      a goal, and are unchanged otherwise. */
  lemma PathLevelsStep(goals: map<Op, Criteria>, seeds: map<Op, Criteria>, path: string, verbs: seq<string>,
                       done: seq<Op>, j: nat)
    requires j < |verbs| && forall k :: 0 <= k < |done| ==> done[k] in goals
    ensures var op := Op(path, verbs[j]);
      LevelsSpec(goals, seeds, done + PathOps(path, verbs[..j + 1], goals)) ==
        if op in goals
        then LevelsSpec(goals, seeds, done + PathOps(path, verbs[..j], goals))[op := LadderSpec(goals[op], SeedFor(seeds, op))]
        else LevelsSpec(goals, seeds, done + PathOps(path, verbs[..j], goals))
  {
    var op := Op(path, verbs[j]);
    var before := done + PathOps(path, verbs[..j], goals);
    PathOpsSnoc(path, verbs[..j], verbs[j], goals);
    assert verbs[..j + 1] == verbs[..j] + [verbs[j]];
    if op in goals {
      assert done + PathOps(path, verbs[..j + 1], goals) == before + [op];
      LevelsSnoc(goals, seeds, before, op);
    } else {
      assert done + PathOps(path, verbs[..j + 1], goals) == before;
    }
  }

  lemma LevelsSnoc(goals: map<Op, Criteria>, seeds: map<Op, Criteria>, ops: seq<Op>, op: Op)
    requires forall k :: 0 <= k < |ops| ==> ops[k] in goals
    requires op in goals
    ensures LevelsSpec(goals, seeds, ops + [op]) == LevelsSpec(goals, seeds, ops)[op := LadderSpec(goals[op], SeedFor(seeds, op))]
  {
    assert (ops + [op])[..|ops|] == ops;
  }

  /** The flow check of the level-7 rule, leaving the loop at the first flow below 6. */
  method FlowsAllow(levels: map<Op, int>, flows: seq<Flow>) returns (r: Result<bool>)
    ensures r == CheckFlows(levels, flows)
  {
    var f := 0;
    while f < |flows|
      invariant 0 <= f <= |flows|
      invariant CheckFlows(levels, flows) == CheckFlows(levels, flows[f..])
    {
      assert flows[f..][1..] == flows[f + 1..];
      if flows[f].path != "" {
        var target := Op(flows[f].path, flows[f].verb);
        if target !in levels {
          return Failure("Invalid: wrong order of sending paths [" + flows[f].verb + "] " + flows[f].path);
        }
        if levels[target] < 6 {
          return Success(false);
        }
      }
      f := f + 1;
    }
    r := Success(true);
  }

  /** The level-7 rule and the vector, operation after operation. */
  method BuildVector(ops: seq<Op>, levels0: map<Op, int>, strict: bool, doc: Doc, posts: map<string, seq<Flow>>)
    returns (r: Result<Walked>)
    requires forall k :: 0 <= k < |ops| ==> ops[k] in levels0
    ensures r == Walk(ops, levels0, strict, doc, posts)
  {
    var levels := levels0;
    var vector: seq<int> := [];
    var k := 0;
    while k < |ops|
      invariant 0 <= k <= |ops|
      invariant Walk(ops[..k], levels0, strict, doc, posts) == Success(Walked(levels, vector))
    {
      var op := ops[k];
      WalkStep(ops, levels0, strict, doc, posts, k);
      var next := PromoteOne(levels, op, strict, doc, posts);
      if next.Failure? {
        WalkFails(ops, levels0, strict, doc, posts, k + 1);
        return Failure(next.error);
      }
      levels := next.value;
      vector := vector + [levels[op]];
      k := k + 1;
    }
    assert ops[..k] == ops;
    r := Success(Walked(levels, vector));
  }

  /** The rule for one operation, as the loop body applies it. */
  method PromoteOne(levels: map<Op, int>, op: Op, strict: bool, doc: Doc, posts: map<string, seq<Flow>>)
    returns (r: Result<map<Op, int>>)
    ensures r == Promote(levels, op, strict, doc, posts)
  {
    r := Success(levels);
    if strict && op.path in doc && "POST" in doc[op.path].ops {
      if op.path !in posts {
        return Failure("nil posts entry: " + op.path);
      }
      var allow := FlowsAllow(levels, posts[op.path]);
      if allow.Failure? {
        return Failure(allow.error);
      }
      if allow.value && op in levels {
        r := Success(levels[op := 7]);
      }
    }
  }

  /** One more operation extends the walk by the rule applied to it. */
  lemma WalkStep(ops: seq<Op>, levels0: map<Op, int>, strict: bool, doc: Doc, posts: map<string, seq<Flow>>, k: nat)
    requires forall i :: 0 <= i < |ops| ==> ops[i] in levels0
    requires k < |ops|
    ensures Walk(ops[..k + 1], levels0, strict, doc, posts) ==
      match Walk(ops[..k], levels0, strict, doc, posts)
      case Failure(e) => Failure(e)
      case Success(w) =>
        match Promote(w.levels, ops[k], strict, doc, posts)
        case Failure(e) => Failure(e)
        case Success(l) => Success(Walked(l, w.vector + [l[ops[k]]]))
  {
    assert ops[..k + 1][..k] == ops[..k];
  }

  lemma WalkFails(ops: seq<Op>, levels0: map<Op, int>, strict: bool, doc: Doc, posts: map<string, seq<Flow>>, k: nat)
    requires forall i :: 0 <= i < |ops| ==> ops[i] in levels0
    requires 0 < k <= |ops|
    requires Walk(ops[..k], levels0, strict, doc, posts).Failure?
    ensures Walk(ops, levels0, strict, doc, posts) == Walk(ops[..k], levels0, strict, doc, posts)
    decreases |ops| - k
  {
    if k < |ops| {
      assert ops[..k + 1][..k] == ops[..k];
      WalkFails(ops, levels0, strict, doc, posts, k + 1);
    } else {
      assert ops[..k] == ops;
    }
  }

  /** getCoverageLevels as the scorer runs it. */
  method CoverageLevels(sc: Scorer, infos: seq<Info>) returns (r: Result<seq<int>>)
    ensures r == CoverageSpec(sc, infos)
  {
    var goals := Goals(sc.doc, sc.strict, sc.x);
    if goals.Failure? {
      return Failure(goals.error);
    }
    var seeds := Seeds(infos, sc.x);
    if seeds.Failure? {
      return Failure(seeds.error);
    }
    var levels := LadderLevels(goals.value, seeds.value, sc.sortedPaths);
    var w := BuildVector(AllOps(sc.sortedPaths, goals.value), levels, sc.strict, sc.doc, sc.posts);
    if w.Failure? {
      return Failure(w.error);
    }
    if |w.value.vector| != sc.methods {
      return Failure("Invalid get levels.");
    }
    r := Success(w.value.vector);
  }

  // ---------------------------------------------------------------- the merge

  /** The larger of two levels, position by position. */
  function PointwiseMax(a: seq<int>, b: seq<int>): (r: seq<int>)
    requires |a| <= |b|
    ensures |r| == |a|
    ensures forall i :: 0 <= i < |a| ==> r[i] >= a[i] && r[i] >= b[i] && (r[i] == a[i] || r[i] == b[i])
  {
    seq(|a|, i requires 0 <= i < |a| => if a[i] > b[i] then a[i] else b[i])
  }

  predicate SomeIncrease(a: seq<int>, b: seq<int>)
    requires |a| <= |b|
  {
    exists i :: 0 <= i < |a| && a[i] > b[i]
  }

  /** Merging is idempotent, and without an increase it gives back the stored vector. */
  lemma MergeStable(a: seq<int>, b: seq<int>)
    requires |a| == |b|
    ensures PointwiseMax(PointwiseMax(a, b), b) == PointwiseMax(a, b)
    ensures !SomeIncrease(a, b) <==> PointwiseMax(a, b) == b
  {
    if !SomeIncrease(a, b) {
      assert forall i :: 0 <= i < |a| ==> PointwiseMax(a, b)[i] == b[i];
    } else {
      var i :| 0 <= i < |a| && a[i] > b[i];
      assert PointwiseMax(a, b)[i] != b[i];
    }
  }

  /** isIndividualIncrease: overwrites `a` with the stored level wherever it is not
      higher, and reports whether it was higher somewhere. */
  method IsIndividualIncrease(a: array<int>, b: seq<int>) returns (flag: bool)
    requires a.Length <= |b|
    modifies a
    ensures flag <==> SomeIncrease(old(a[..]), b)
    ensures a[..] == PointwiseMax(old(a[..]), b)
  {
    flag := false;
    var i := 0;
    while i < a.Length
      invariant 0 <= i <= a.Length
      invariant a[i..] == old(a[..])[i..]
      invariant a[..i] == PointwiseMax(old(a[..]), b)[..i]
      invariant flag <==> exists j :: 0 <= j < i && old(a[j]) > b[j]
    {
      if a[i] > b[i] {
        flag := true;
      } else {
        a[i] := b[i];
      }
      assert a[..i + 1] == a[..i] + [a[i]];
      i := i + 1;
    }
    assert a[..] == a[..i];
  }
}
