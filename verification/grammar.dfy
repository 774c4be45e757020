/** The grammar builder: the dependency flows that fix the order of paths, the nodes of
    each group (DELETE requests deferred to the end, latest path first), the number of
    copies of a node, and the requests a node carries. */
module Grammar {
  import opened Values
  import opened Base
  import opened Api
  import Text
  import Mutator

  // ---------------------------------------------------------------- flows

  /** The paths that must be visited before the items' own: for each item whose source is
      not "x", the flows of the source and then the source itself. A source missing from
      the dependency file is a nil dereference; a source already on the call chain makes
      the recursion endless. Both crash the fuzzer. */
  function FlowsOf(paths: map<string, seq<Item>>, items: seq<Item>, strict: bool, stack: set<string>)
    : (r: Result<seq<string>>)
    ensures !strict ==> r == Success([])
    decreases paths.Keys - stack, |items|
  {
    if !strict || items == [] then Success([])
    else
      var sp := items[0].sourcePath;
      if sp == "x" then FlowsOf(paths, items[1..], strict, stack)
      else if sp !in paths then Failure("nil dependency entry: " + sp)
      else if sp in stack then Failure("cyclic dependency: " + sp)
      else
        match FlowsOf(paths, paths[sp], strict, stack + {sp})
        case Failure(e) => Failure(e)
        case Success(sub) =>
          match FlowsOf(paths, items[1..], strict, stack)
          case Failure(e) => Failure(e)
          case Success(rest) => Success(sub + [sp] + rest)
  }

  /** In strict mode, an item anywhere in the list whose source is missing from the
      dependency file or already on the call chain makes the whole computation fail. */
  lemma {:induction false} FlowsOfFails(paths: map<string, seq<Item>>, items: seq<Item>, stack: set<string>, i: nat)
    requires i < |items| && items[i].sourcePath != "x"
    requires items[i].sourcePath !in paths || items[i].sourcePath in stack
    ensures FlowsOf(paths, items, true, stack).Failure?
    decreases i
  {
    var sp := items[0].sourcePath;
    if i > 0 && sp != "x" && sp in paths && sp !in stack {
      if FlowsOf(paths, paths[sp], true, stack + {sp}).Success? {
        FlowsOfFails(paths, items[1..], stack, i - 1);
      }
    } else if i > 0 && sp == "x" {
      FlowsOfFails(paths, items[1..], stack, i - 1);
    }
  }

  /** Flows name only dependency paths, never "x" and never a path on the call chain. */
  lemma {:induction false} FlowsNamePaths(paths: map<string, seq<Item>>, items: seq<Item>, strict: bool, stack: set<string>)
    requires FlowsOf(paths, items, strict, stack).Success?
    ensures forall i :: 0 <= i < |FlowsOf(paths, items, strict, stack).value| ==>
      (var p := FlowsOf(paths, items, strict, stack).value[i]; p in paths && p != "x" && p !in stack)
    decreases paths.Keys - stack, |items|
  {
    if strict && items != [] {
      var sp := items[0].sourcePath;
      if sp == "x" {
        FlowsNamePaths(paths, items[1..], strict, stack);
      } else {
        FlowsNamePaths(paths, paths[sp], strict, stack + {sp});
        FlowsNamePaths(paths, items[1..], strict, stack);
      }
    }
  }

  /** The order of a dependency path: its flows, then the path itself. */
  function OrderOf(paths: map<string, seq<Item>>, path: string, strict: bool): Result<seq<string>>
    requires path in paths
  {
    match FlowsOf(paths, paths[path], strict, {path})
    case Failure(e) => Failure(e)
    case Success(fl) => Success(fl + [path])
  }

  /** An order ends with its path, names it nowhere else, and names only dependency
      paths; outside strict mode it is the path alone. */
  lemma OrderEndsWithPath(paths: map<string, seq<Item>>, path: string, strict: bool)
    requires path in paths && OrderOf(paths, path, strict).Success?
    ensures var o := OrderOf(paths, path, strict).value;
      |o| >= 1 && o[|o| - 1] == path && path !in o[..|o| - 1] &&
      forall i :: 0 <= i < |o| ==> o[i] in paths
    ensures !strict ==> OrderOf(paths, path, strict).value == [path]
  {
    FlowsNamePaths(paths, paths[path], strict, {path});
    var o := OrderOf(paths, path, strict).value;
    assert o[..|o| - 1] == FlowsOf(paths, paths[path], strict, {path}).value;
  }

  /** The order of every dependency path; outside strict mode every sorted path is
      visited alone. */
  function Orders(paths: map<string, seq<Item>>, strict: bool, sorted: seq<string>): (r: Result<map<string, seq<string>>>)
    ensures r.Success? ==> paths.Keys <= r.value.Keys
    ensures r.Failure? ==> strict
  {
    if exists p :: p in paths && OrderOf(paths, p, strict).Failure? then Failure("invalid dependency flows")
    else
      var m := map p | p in paths :: OrderOf(paths, p, strict).value;
      if strict then Success(m) else Success(m + map p | p in sorted :: [p])
  }

  /** Outside strict mode the order of every sorted path is the path alone. */
  lemma NonStrictOrders(paths: map<string, seq<Item>>, sorted: seq<string>)
    ensures Orders(paths, false, sorted).Success?
    ensures forall i :: 0 <= i < |sorted| ==> Orders(paths, false, sorted).value[sorted[i]] == [sorted[i]]
  {
    forall p | p in paths
      ensures OrderOf(paths, p, false) == Success([p])
    {
      assert [] + [p] == [p];
    }
  }

  /** The orders, computed one dependency path at a time. */
  method ComputeOrders(paths: map<string, seq<Item>>, strict: bool, sorted: seq<string>)
    returns (r: Result<map<string, seq<string>>>)
    ensures r == Orders(paths, strict, sorted)
  {
    var orders: map<string, seq<string>> := map[];
    var rest := paths.Keys;
    while rest != {}
      invariant rest <= paths.Keys
      invariant forall p :: p in paths.Keys - rest ==> OrderOf(paths, p, strict).Success?
      invariant orders == map p | p in paths.Keys - rest :: OrderOf(paths, p, strict).value
      decreases rest
    {
      var p :| p in rest;
      var flows := FlowsOf(paths, paths[p], strict, {p});
      if flows.Failure? {
        return Failure("invalid dependency flows");
      }
      orders := orders[p := flows.value + [p]];
      rest := rest - {p};
    }
    assert paths.Keys - rest == paths.Keys;
    if !strict {
      orders := AddSingles(orders, sorted);
    }
    r := Success(orders);
  }

  /** Gives each of `sorted` the order that visits it alone. */
  method AddSingles(orders: map<string, seq<string>>, sorted: seq<string>) returns (r: map<string, seq<string>>)
    ensures r == orders + map p | p in sorted :: [p]
  {
    r := orders;
    var i := 0;
    while i < |sorted|
      invariant 0 <= i <= |sorted|
      invariant r == orders + map p | p in sorted[..i] :: [p]
    {
      assert sorted[..i + 1] == sorted[..i] + [sorted[i]];
      r := r[sorted[i] := [sorted[i]]];
      i := i + 1;
    }
    assert sorted[..i] == sorted;
  }

  // ---------------------------------------------------------------- requests

  /** The parameters by name; a later one (the operation's own) replaces an earlier one
      (the path's) of the same name. */
  function MergeParams(ps: seq<Param>): (m: map<string, Param>)
    ensures forall i :: 0 <= i < |ps| ==> ps[i].name in m
    ensures forall n :: n in m ==> m[n].name == n && m[n] in ps
    decreases |ps|
  {
    if ps == [] then map[]
    else
      var last := ps[|ps| - 1];
      MergeParams(ps[..|ps| - 1])[last.name := last]
  }

  /** The merged parameter of a name is the last parameter of that name. */
  lemma {:induction false} LastParamWins(ps: seq<Param>, i: nat)
    requires i < |ps| && forall j :: i < j < |ps| ==> ps[j].name != ps[i].name
    ensures MergeParams(ps)[ps[i].name] == ps[i]
    decreases |ps|
  {
    if i < |ps| - 1 {
      LastParamWins(ps[..|ps| - 1], i);
    }
  }

  /** The names of `ps`, each once, in first-seen order. */
  function Names(ps: seq<Param>): (r: seq<string>)
    ensures forall n :: n in r <==> exists i :: 0 <= i < |ps| && ps[i].name == n
    ensures forall i, j :: 0 <= i < j < |r| ==> r[i] != r[j]
    decreases |ps|
  {
    if ps == [] then []
    else
      var pre := Names(ps[..|ps| - 1]);
      var n := ps[|ps| - 1].name;
      if n in pre then pre else pre + [n]
  }

  /** The parameter names in lexicographic order: the merged parameters' names, each
      once. */
  function SortedNames(ps: seq<Param>): (r: seq<string>)
    ensures forall n :: n in r <==> n in MergeParams(ps)
    ensures Text.Sorted(r)
    ensures forall i, j :: 0 <= i < j < |r| ==> r[i] != r[j]
  {
    var r := Text.SortStrings(Names(ps));
    SortedNamesFacts(ps, r);
    r
  }

  lemma SortedNamesFacts(ps: seq<Param>, r: seq<string>)
    requires multiset(r) == multiset(Names(ps))
    ensures forall n :: n in r <==> n in MergeParams(ps)
    ensures forall i, j :: 0 <= i < j < |r| ==> r[i] != r[j]
  {
    var m := MergeParams(ps);
    forall n ensures n in r <==> n in m {
      assert n in r <==> n in multiset(r);
      assert n in Names(ps) <==> n in multiset(Names(ps));
      if n in m {
        var i :| 0 <= i < |ps| && ps[i] == m[n];
      }
    }
    DistinctSorted(r, Names(ps));
  }

  /** A non-empty string example is sent base64-encoded; anything else as it is. */
  function EncodeParam(v: Value, x: Externals): (r: Value)
    ensures v.Str? && v.s != "" ==> r == Str(x.encode(v.s))
    ensures !(v.Str? && v.s != "") ==> r == v
  {
    if v.Str? && v.s != "" then Str(x.encode(v.s)) else v
  }

  /** One request per name: a one-field object of the parameter's example, tagged with its
      location. A parameter without an example crashes the builder. */
  function ParamRequests(names: seq<string>, merged: map<string, Param>, x: Externals): Result<seq<Request>>
    requires forall i :: 0 <= i < |names| ==> names[i] in merged
    decreases |names|
  {
    if names == [] then Success([])
    else
      var pre := ParamRequests(names[..|names| - 1], merged, x);
      var n := names[|names| - 1];
      var p := merged[n];
      if pre.Failure? then pre
      else if p.example.None? then Failure("no example for parameter " + n)
      else Success(pre.value + [Request(p.location, [Field(n, EncodeParam(p.example.value, x))])])
  }

  /** The parameter requests fail exactly when some parameter lacks an example; otherwise
      the i-th request carries the i-th name and its parameter's (encoded) example, sent
      where that parameter lives. */
  lemma {:induction false} ParamRequestsMeaning(names: seq<string>, merged: map<string, Param>, x: Externals)
    requires forall i :: 0 <= i < |names| ==> names[i] in merged
    ensures var r := ParamRequests(names, merged, x);
      (r.Success? ==> (|r.value| == |names| && forall i :: 0 <= i < |names| ==>
        (merged[names[i]].example.Some? &&
         r.value[i] == Request(merged[names[i]].location, [Field(names[i], EncodeParam(merged[names[i]].example.value, x))])))) &&
      (r.Failure? <==> exists i :: 0 <= i < |names| && merged[names[i]].example.None?)
    decreases |names|
  {
    if names != [] {
      var pre := names[..|names| - 1];
      ParamRequestsMeaning(pre, merged, x);
      assert forall i :: 0 <= i < |pre| ==> pre[i] == names[i];
    }
  }

  /** Whether the value at leaf `l` is a non-empty string, which the builder encodes. */
  function EncodeLeaf(reqs: seq<Request>, l: Mutator.Leaf, x: Externals): seq<Request> {
    match Mutator.Get(reqs, l)
    case Some(Str(s)) => if s != "" then Mutator.SetAt(reqs, l, Str(x.encode(s))) else reqs
    case _ => reqs
  }

  function EncodeLeaves(reqs: seq<Request>, leaves: seq<Mutator.Leaf>, k: nat, x: Externals): (r: seq<Request>)
    requires k <= |leaves|
    ensures |r| == |reqs| && forall i :: 0 <= i < |reqs| ==> r[i].typ == reqs[i].typ
  {
    if k == 0 then reqs else EncodeLeaf(EncodeLeaves(reqs, leaves, k - 1, x), leaves[k - 1], x)
  }

  /** A leaf that leads to a non-empty string: the only kind the encoder rewrites. */
  predicate NonEmptyStr(o: Option<Value>) {
    o.Some? && o.value.Str? && o.value.s != ""
  }

  /** Two leaves that name the same node. */
  predicate SameNode(a: Mutator.Leaf, b: Mutator.Leaf) {
    a.req == b.req && a.path == b.path
  }

  /** Encoding one leaf writes the encoded string at that leaf. */
  lemma EncodeLeafHere(reqs: seq<Request>, l: Mutator.Leaf, x: Externals)
    requires NonEmptyStr(Mutator.Get(reqs, l))
    ensures Mutator.Get(EncodeLeaf(reqs, l, x), l) == Some(Str(x.encode(Mutator.Get(reqs, l).value.s)))
  {
    PutAt(Struct(reqs[l.req].fields), l.path, Str(x.encode(Mutator.Get(reqs, l).value.s)));
  }

  /** Encoding one leaf leaves every scalar at another node as it was. */
  lemma EncodeLeafElsewhere(reqs: seq<Request>, lj: Mutator.Leaf, l: Mutator.Leaf, x: Externals)
    requires Mutator.Get(reqs, l).Some? && IsScalar(Mutator.Get(reqs, l).value)
    requires !SameNode(lj, l)
    ensures Mutator.Get(EncodeLeaf(reqs, lj, x), l) == Mutator.Get(reqs, l)
  {
    if NonEmptyStr(Mutator.Get(reqs, lj)) && lj.req == l.req {
      var w := Str(x.encode(Mutator.Get(reqs, lj).value.s));
      PutScalarFrame(Struct(reqs[l.req].fields), lj.path, l.path, w);
    }
  }

  /** A scalar keeps its value through the first `k` leaves, unless it is a non-empty
      string one of them names. */
  lemma {:induction false} EncodeLeavesKeeps(reqs: seq<Request>, leaves: seq<Mutator.Leaf>, k: nat, x: Externals, l: Mutator.Leaf)
    requires k <= |leaves|
    requires Mutator.Get(reqs, l).Some? && IsScalar(Mutator.Get(reqs, l).value)
    requires NonEmptyStr(Mutator.Get(reqs, l)) ==> forall j :: 0 <= j < k ==> !SameNode(leaves[j], l)
    ensures Mutator.Get(EncodeLeaves(reqs, leaves, k, x), l) == Mutator.Get(reqs, l)
  {
    if k > 0 {
      EncodeLeavesKeeps(reqs, leaves, k - 1, x, l);
      var before := EncodeLeaves(reqs, leaves, k - 1, x);
      if !SameNode(leaves[k - 1], l) {
        EncodeLeafElsewhere(before, leaves[k - 1], l, x);
      } else {
        assert Mutator.Get(before, leaves[k - 1]) == Mutator.Get(before, l);
      }
    }
  }

  /** A non-empty string that exactly one of the first `k` leaves names comes out
      base64-encoded. */
  lemma {:induction false} EncodeLeavesEncodes(reqs: seq<Request>, leaves: seq<Mutator.Leaf>, k: nat, x: Externals, i: nat)
    requires i < k <= |leaves|
    requires NonEmptyStr(Mutator.Get(reqs, leaves[i]))
    requires forall j :: 0 <= j < |leaves| && j != i ==> !SameNode(leaves[j], leaves[i])
    ensures Mutator.Get(EncodeLeaves(reqs, leaves, k, x), leaves[i])
      == Some(Str(x.encode(Mutator.Get(reqs, leaves[i]).value.s)))
  {
    var l, before := leaves[i], EncodeLeaves(reqs, leaves, k - 1, x);
    assert EncodeLeaves(reqs, leaves, k, x) == EncodeLeaf(before, leaves[k - 1], x);
    if k - 1 == i {
      EncodeLeavesKeeps(reqs, leaves, i, x, l);
      EncodeLeafHere(before, l, x);
    } else {
      EncodeLeavesEncodes(reqs, leaves, k - 1, x, i);
      assert !SameNode(leaves[k - 1], l);
      EncodeLeafElsewhere(before, leaves[k - 1], l, x);
    }
  }

  /** A JSON body request: its example's fields, with every non-empty string leaf
      base64-encoded. A string inside a list is not a leaf of its own and stays as it is. */
  function BodySpec(mt: string, fields: seq<Field>, x: Externals): Result<Request> {
    var q := [Request(mt, fields)];
    match Mutator.FlattenRequest(q, 0)
    case Failure(e) => Failure(e)
    case Success(leaves) => Success(EncodeLeaves(q, leaves, |leaves|, x)[0])
  }

  /** In a body built from a well-formed example, each non-empty string that a leaf
      names comes out base64-encoded. */
  lemma BodySpecEncodes(mt: string, fields: seq<Field>, x: Externals, i: nat)
    requires WellFormed(Struct(fields))
    requires Mutator.FlattenRequest([Request(mt, fields)], 0).Success?
    requires i < |Mutator.FlattenRequest([Request(mt, fields)], 0).value|
    requires NonEmptyStr(At(Struct(fields), Mutator.FlattenRequest([Request(mt, fields)], 0).value[i].path))
    ensures BodySpec(mt, fields, x).Success?
    ensures var p := Mutator.FlattenRequest([Request(mt, fields)], 0).value[i].path;
      At(Struct(BodySpec(mt, fields, x).value.fields), p) == Some(Str(x.encode(At(Struct(fields), p).value.s)))
  {
    var q := [Request(mt, fields)];
    var leaves := Mutator.FlattenRequest(q, 0).value;
    Mutator.RequestLeavesSound(q, 0);
    Mutator.RequestNamedOnce(q, 0);
    assert Mutator.LeafOk(Struct(fields), 0, leaves[i]);
    forall j | 0 <= j < |leaves| && j != i ensures !SameNode(leaves[j], leaves[i]) {
      assert Mutator.ScalarAt(Struct(fields), leaves[i].path);
    }
    EncodeLeavesEncodes(q, leaves, |leaves|, x, i);
  }

  /** In a body, every scalar that is not a non-empty string named by a leaf (a string
      inside a list, say) keeps its value. */
  lemma BodySpecKeeps(mt: string, fields: seq<Field>, x: Externals, p: seq<Step>)
    requires Mutator.FlattenRequest([Request(mt, fields)], 0).Success?
    requires Mutator.ScalarAt(Struct(fields), p)
    requires NonEmptyStr(At(Struct(fields), p)) ==>
      forall j :: 0 <= j < |Mutator.FlattenRequest([Request(mt, fields)], 0).value| ==>
        Mutator.FlattenRequest([Request(mt, fields)], 0).value[j].path != p
    ensures BodySpec(mt, fields, x).Success?
    ensures At(Struct(BodySpec(mt, fields, x).value.fields), p) == At(Struct(fields), p)
  {
    var q := [Request(mt, fields)];
    var leaves := Mutator.FlattenRequest(q, 0).value;
    EncodeLeavesKeeps(q, leaves, |leaves|, x, Mutator.Leaf("", 0, p));
  }

  /** The fields of a body example: those of an object; a missing example (outside strict
      mode) or one that is not an object gives none. */
  function ExampleFields(ex: Option<Value>): seq<Field> {
    if ex.Some? && ex.value.Struct? then ex.value.fields else []
  }

  /** The JSON media types among `cs`, in order. */
  function JsonMedia(cs: seq<Content>): (r: seq<string>)
    ensures forall i :: 0 <= i < |r| ==> IsJson(r[i])
    decreases |cs|
  {
    if cs == [] then []
    else JsonMedia(cs[..|cs| - 1]) + (if IsJson(cs[|cs| - 1].mediaType) then [cs[|cs| - 1].mediaType] else [])
  }

  /** The body requests, one per JSON media type in the order given. */
  function BodyRequests(cs: seq<Content>, strict: bool, x: Externals): Result<seq<Request>>
    decreases |cs|
  {
    if cs == [] then Success([])
    else
      var pre := BodyRequests(cs[..|cs| - 1], strict, x);
      var c := cs[|cs| - 1];
      if pre.Failure? then pre
      else if !IsJson(c.mediaType) then pre
      else if strict && c.example.None? then Failure("no example for a request body")
      else
        match BodySpec(c.mediaType, ExampleFields(c.example), x)
        case Failure(e) => Failure(e)
        case Success(q) => Success(pre.value + [q])
  }

  /** The body requests are one per JSON media type, in the order given; strict mode
      fails on a JSON media type without an example. */
  lemma {:induction false} BodyRequestsMeaning(cs: seq<Content>, strict: bool, x: Externals)
    ensures var r := BodyRequests(cs, strict, x);
      (r.Success? ==> (|r.value| == |JsonMedia(cs)| &&
         forall i :: 0 <= i < |r.value| ==> r.value[i].typ == JsonMedia(cs)[i])) &&
      (strict && (exists i :: 0 <= i < |cs| && IsJson(cs[i].mediaType) && cs[i].example.None?) ==> r.Failure?)
    decreases |cs|
  {
    if cs != [] {
      var pre := cs[..|cs| - 1];
      BodyRequestsMeaning(pre, strict, x);
      assert forall i :: 0 <= i < |pre| ==> pre[i] == cs[i];
      var c := cs[|cs| - 1];
      if !IsJson(c.mediaType) || !(strict && c.example.None?) {
        match BodySpec(c.mediaType, ExampleFields(c.example), x)
        case Failure(e) =>
        case Success(q) =>
          var r := BodyRequests(cs, strict, x);
          if r.Success? && IsJson(c.mediaType) {
            assert r.value == BodyRequests(pre, strict, x).value + [q];
          }
      }
    }
  }

  /** getRequestParameters: parameter requests in name order, then the body requests. */
  function RequestsSpec(item: PathItem, op: Operation, strict: bool, x: Externals): Result<seq<Request>> {
    var ps := item.params + op.params;
    match ParamRequests(SortedNames(ps), MergeParams(ps), x)
    case Failure(e) => Failure(e)
    case Success(params) =>
      if op.body.None? then Success(params)
      else
        match BodyRequests(op.body.value, strict, x)
        case Failure(e) => Failure(e)
        case Success(bodies) => Success(params + bodies)
  }

  /** The parameter requests come first, one per distinct name (the last declaration of
      a name wins), in strictly increasing name order, each a single field named after
      its parameter and sent where that parameter lives; the body requests follow and
      are all JSON. */
  lemma RequestsLayout(item: PathItem, op: Operation, strict: bool, x: Externals)
    requires RequestsSpec(item, op, strict, x).Success?
    ensures var reqs := RequestsSpec(item, op, strict, x).value;
      var merged := MergeParams(item.params + op.params);
      var n := |SortedNames(item.params + op.params)|;
      n <= |reqs| &&
      (forall i :: 0 <= i < n ==> (|reqs[i].fields| == 1 && reqs[i].fields[0].key in merged &&
         reqs[i].typ == merged[reqs[i].fields[0].key].location)) &&
      (forall name :: name in merged ==> exists i :: 0 <= i < n && reqs[i].fields[0].key == name) &&
      (forall i, j :: 0 <= i < j < n ==> (Text.StrLeq(reqs[i].fields[0].key, reqs[j].fields[0].key) &&
         reqs[i].fields[0].key != reqs[j].fields[0].key)) &&
      (forall i :: n <= i < |reqs| ==> IsJson(reqs[i].typ))
  {
    var ps := item.params + op.params;
    var names := SortedNames(ps);
    var merged := MergeParams(ps);
    var reqs := RequestsSpec(item, op, strict, x).value;
    RequestsShape(item, op, strict, x);
    ParamsLayout(names, merged, x);
    var params := ParamRequests(names, merged, x).value;
    var tail := if op.body.Some? then BodyRequests(op.body.value, strict, x).value else [];
    if op.body.Some? {
      BodyRequestsMeaning(op.body.value, strict, x);
    }
    assert reqs == params + tail;
    LayoutOf(reqs, params, tail, names, merged);
  }

  /** The layout of parameter requests followed by JSON body requests, on plain
      sequences. */
  lemma LayoutOf(reqs: seq<Request>, params: seq<Request>, tail: seq<Request>, names: seq<string>,
                 merged: map<string, Param>)
    requires reqs == params + tail && |params| == |names|
    requires forall i :: 0 <= i < |names| ==> names[i] in merged
    requires forall i :: 0 <= i < |names| ==>
      (|params[i].fields| == 1 && params[i].fields[0].key == names[i] && params[i].typ == merged[names[i]].location)
    requires forall n :: n in names <==> n in merged
    requires Text.Sorted(names) && forall i, j :: 0 <= i < j < |names| ==> names[i] != names[j]
    requires forall i :: 0 <= i < |tail| ==> IsJson(tail[i].typ)
    ensures var n := |names|;
      n <= |reqs| &&
      (forall i :: 0 <= i < n ==> (|reqs[i].fields| == 1 && reqs[i].fields[0].key in merged &&
         reqs[i].typ == merged[reqs[i].fields[0].key].location)) &&
      (forall name :: name in merged ==> exists i :: 0 <= i < n && reqs[i].fields[0].key == name) &&
      (forall i, j :: 0 <= i < j < n ==> (Text.StrLeq(reqs[i].fields[0].key, reqs[j].fields[0].key) &&
         reqs[i].fields[0].key != reqs[j].fields[0].key)) &&
      (forall i :: n <= i < |reqs| ==> IsJson(reqs[i].typ))
  {
    var n := |names|;
    assert forall i :: 0 <= i < n ==> reqs[i] == params[i];
    assert forall i :: n <= i < |reqs| ==> reqs[i] == tail[i - n];
    forall name | name in merged
      ensures exists i :: 0 <= i < n && reqs[i].fields[0].key == name
    {
      var i :| 0 <= i < n && names[i] == name;
      assert reqs[i].fields[0].key == names[i];
    }
  }

  /** The requests are the parameter requests, followed by the body requests when the
      operation declares a body. */
  lemma RequestsShape(item: PathItem, op: Operation, strict: bool, x: Externals)
    ensures var ps := item.params + op.params;
      var params := ParamRequests(SortedNames(ps), MergeParams(ps), x);
      var reqs := RequestsSpec(item, op, strict, x);
      reqs.Success? ==> (params.Success? &&
        (op.body.None? ==> reqs.value == params.value) &&
        (op.body.Some? ==> (BodyRequests(op.body.value, strict, x).Success? &&
          reqs.value == params.value + BodyRequests(op.body.value, strict, x).value)))
  {
  }

  /** The i-th parameter request is a single field named by the i-th name. */
  lemma ParamsLayout(names: seq<string>, merged: map<string, Param>, x: Externals)
    requires forall i :: 0 <= i < |names| ==> names[i] in merged
    requires ParamRequests(names, merged, x).Success?
    ensures var ps := ParamRequests(names, merged, x).value;
      |ps| == |names| && forall i :: 0 <= i < |names| ==>
        (|ps[i].fields| == 1 && ps[i].fields[0].key == names[i] && ps[i].typ == merged[names[i]].location)
  {
    ParamRequestsMeaning(names, merged, x);
  }

  /** A sorted arrangement of names without repeats has none either. */
  lemma DistinctSorted(r: seq<string>, s: seq<string>)
    requires multiset(r) == multiset(s)
    requires forall i, j :: 0 <= i < j < |s| ==> s[i] != s[j]
    ensures forall i, j :: 0 <= i < j < |r| ==> r[i] != r[j]
  {
    forall i, j | 0 <= i < j < |r|
      ensures r[i] != r[j]
    {
      if r[i] == r[j] {
        assert multiset(r)[r[i]] >= 2 by {
          assert r == r[..i] + [r[i]] + r[i + 1..j] + [r[j]] + r[j + 1..];
        }
        UniqueCount(s, r[i]);
      }
    }
  }

  lemma {:induction false} UniqueCount(s: seq<string>, n: string)
    requires forall i, j :: 0 <= i < j < |s| ==> s[i] != s[j]
    ensures multiset(s)[n] <= 1
    decreases |s|
  {
    if s != [] {
      assert s == [s[0]] + s[1..];
      UniqueCount(s[1..], n);
      if s[0] == n {
        assert n !in s[1..];
      }
    }
  }

  /** getRequestParameters as the builder runs it. */
  method BuildRequests(item: PathItem, op: Operation, strict: bool, x: Externals) returns (r: Result<seq<Request>>)
    ensures r == RequestsSpec(item, op, strict, x)
  {
    var ps := item.params + op.params;
    var params := BuildParams(SortedNames(ps), MergeParams(ps), x);
    if params.Failure? {
      return Failure(params.error);
    }
    var reqs := params.value;
    if op.body.Some? {
      var bodies := BuildBodies(op.body.value, strict, x);
      if bodies.Failure? {
        return Failure(bodies.error);
      }
      reqs := reqs + bodies.value;
    }
    r := Success(reqs);
  }

  /** The parameter requests, name after name; the first name without an example ends
      the build. */
  method BuildParams(names: seq<string>, merged: map<string, Param>, x: Externals) returns (r: Result<seq<Request>>)
    requires forall i :: 0 <= i < |names| ==> names[i] in merged
    ensures r == ParamRequests(names, merged, x)
  {
    var reqs: seq<Request> := [];
    var i := 0;
    while i < |names|
      invariant 0 <= i <= |names|
      invariant ParamRequests(names[..i], merged, x) == Success(reqs)
    {
      assert names[..i + 1][..i] == names[..i];
      var p := merged[names[i]];
      if p.example.None? {
        ParamsFail(names, merged, x, i + 1);
        return Failure("no example for parameter " + names[i]);
      }
      reqs := reqs + [Request(p.location, [Field(names[i], EncodeParam(p.example.value, x))])];
      i := i + 1;
    }
    assert names[..i] == names;
    r := Success(reqs);
  }

  lemma {:induction false} ParamsFail(names: seq<string>, merged: map<string, Param>, x: Externals, k: nat)
    requires forall i :: 0 <= i < |names| ==> names[i] in merged
    requires 0 < k <= |names| && ParamRequests(names[..k], merged, x).Failure?
    ensures ParamRequests(names, merged, x) == ParamRequests(names[..k], merged, x)
    decreases |names| - k
  {
    if k < |names| {
      assert names[..k + 1][..k] == names[..k];
      ParamsFail(names, merged, x, k + 1);
    } else {
      assert names[..k] == names;
    }
  }

  /** The body requests, one media type after the other. */
  method BuildBodies(cs: seq<Content>, strict: bool, x: Externals) returns (r: Result<seq<Request>>)
    ensures r == BodyRequests(cs, strict, x)
  {
    var reqs: seq<Request> := [];
    var i := 0;
    while i < |cs|
      invariant 0 <= i <= |cs|
      invariant BodyRequests(cs[..i], strict, x) == Success(reqs)
    {
      assert cs[..i + 1][..i] == cs[..i];
      var c := cs[i];
      if IsJson(c.mediaType) {
        if strict && c.example.None? {
          BodiesFail(cs, strict, x, i + 1);
          return Failure("no example for a request body");
        }
        var q := EncodeBody(c.mediaType, ExampleFields(c.example), x);
        if q.Failure? {
          BodiesFail(cs, strict, x, i + 1);
          return Failure(q.error);
        }
        reqs := reqs + [q.value];
      }
      i := i + 1;
    }
    assert cs[..i] == cs;
    r := Success(reqs);
  }

  lemma {:induction false} BodiesFail(cs: seq<Content>, strict: bool, x: Externals, k: nat)
    requires 0 < k <= |cs| && BodyRequests(cs[..k], strict, x).Failure?
    ensures BodyRequests(cs, strict, x) == BodyRequests(cs[..k], strict, x)
    decreases |cs| - k
  {
    if k < |cs| {
      assert cs[..k + 1][..k] == cs[..k];
      BodiesFail(cs, strict, x, k + 1);
    } else {
      assert cs[..k] == cs;
    }
  }

  /** The leaves of a one-request list are those of its request. */
  lemma FlattenOne(q: seq<Request>)
    requires |q| == 1
    ensures Mutator.FlattenAll(q, 1) == Mutator.FlattenRequest(q, 0)
  {
    assert Mutator.FlattenAll(q, 0) == Success([]);
    if Mutator.FlattenRequest(q, 0).Success? {
      assert [] + Mutator.FlattenRequest(q, 0).value == Mutator.FlattenRequest(q, 0).value;
    }
  }

  /** Collects the leaves of a body, then encodes their strings in place. */
  method EncodeBody(mt: string, fields: seq<Field>, x: Externals) returns (r: Result<Request>)
    ensures r == BodySpec(mt, fields, x)
  {
    var q := [Request(mt, fields)];
    var leaves := Mutator.CollectLeaves(q);
    FlattenOne(q);
    if leaves.Failure? {
      return Failure(leaves.error);
    }
    q := EncodeAll(q, leaves.value, x);
    r := Success(q[0]);
  }

  /** The encoding loop: each collected leaf in turn. */
  method EncodeAll(q: seq<Request>, leaves: seq<Mutator.Leaf>, x: Externals) returns (r: seq<Request>)
    ensures r == EncodeLeaves(q, leaves, |leaves|, x)
  {
    r := q;
    var k := 0;
    while k < |leaves|
      invariant 0 <= k <= |leaves|
      invariant r == EncodeLeaves(q, leaves, k, x)
    {
      r := EncodeLeaf(r, leaves[k], x);
      k := k + 1;
    }
  }

  // ---------------------------------------------------------------- nodes

  /** How many nodes an operation gets: one per declared response that is not excluded. */
  function NodeCount(responses: map<string, Response>): nat {
    var e := ExcludedCount(responses);
    if |responses| >= e then |responses| - e else 0
  }

  /** newNode: no node for an undeclared method; otherwise identical copies, one per
      response that is not excluded. A path missing from the document is a nil
      dereference. */
  function NodesSpec(doc: Doc, group: nat, path: string, verb: string, strict: bool, x: Externals)
    : Result<seq<Node>>
  {
    if path !in doc then Failure("nil path item: " + path)
    else if verb !in doc[path].ops then Success([])
    else
      var op := doc[path].ops[verb];
      match RequestsSpec(doc[path], op, strict, x)
      case Failure(e) => Failure(e)
      case Success(reqs) => Success(seq(NodeCount(op.responses), _ => Node(group, path, verb, reqs)))
  }

  /** A missing path fails; an undeclared method yields no node; a declared one yields
      NodeCount copies of the same node, tagged with the group, path and method and
      carrying the operation's requests, or fails with the requests. */
  lemma NodesMeaning(doc: Doc, group: nat, path: string, verb: string, strict: bool, x: Externals)
    ensures var r := NodesSpec(doc, group, path, verb, strict, x);
      (path !in doc ==> r.Failure?) &&
      (path in doc && verb !in doc[path].ops ==> r == Success([])) &&
      (path in doc && verb in doc[path].ops ==>
        var reqs := RequestsSpec(doc[path], doc[path].ops[verb], strict, x);
        (r.Success? <==> reqs.Success?) &&
        (r.Success? ==> (|r.value| == NodeCount(doc[path].ops[verb].responses) &&
          forall i :: 0 <= i < |r.value| ==> r.value[i] == Node(group, path, verb, reqs.value))))
  {
  }

  /** newNode as the builder runs it. */
  method NewNode(doc: Doc, group: nat, path: string, verb: string, strict: bool, x: Externals)
    returns (r: Result<seq<Node>>)
    ensures r == NodesSpec(doc, group, path, verb, strict, x)
  {
    if path !in doc {
      return Failure("nil path item: " + path);
    }
    if verb !in doc[path].ops {
      return Success([]);
    }
    var op := doc[path].ops[verb];
    var reqs := BuildRequests(doc[path], op, strict, x);
    if reqs.Failure? {
      return Failure(reqs.error);
    }
    var exclude := CountExcluded(op.responses);
    var nodes: seq<Node> := [];
    var i := 0;
    while i < |op.responses| - exclude
      invariant 0 <= i <= NodeCount(op.responses) && |nodes| == i
      invariant forall j :: 0 <= j < i ==> nodes[j] == Node(group, path, verb, reqs.value)
    {
      nodes := nodes + [Node(group, path, verb, reqs.value)];
      i := i + 1;
    }
    assert nodes == seq(NodeCount(op.responses), _ => Node(group, path, verb, reqs.value));
    r := Success(nodes);
  }

  /** The number of excluded codes an operation declares, counted code by code. */
  method CountExcluded(responses: map<string, Response>) returns (n: nat)
    ensures n == ExcludedCount(responses)
  {
    n := 0;
    var c := 0;
    while c < |ExcludeCodes|
      invariant 0 <= c <= |ExcludeCodes|
      invariant n + CountDeclared(ExcludeCodes[c..], responses) == ExcludedCount(responses)
    {
      assert ExcludeCodes[c..][1..] == ExcludeCodes[c + 1..];
      if ExcludeCodes[c] in responses {
        n := n + 1;
      }
      c := c + 1;
    }
    assert ExcludeCodes[c..] == [];
  }

  // ---------------------------------------------------------------- groups

  datatype Visit = Visit(path: string, verb: string)

  /** The (path, method) pairs of a group in the order the builder visits them. */
  function Visits(order: seq<string>, verbs: seq<string>): (r: seq<Visit>)
    ensures |r| == |order| * |verbs|
    decreases |order|
  {
    if order == [] then []
    else Visits(order[..|order| - 1], verbs) + PathVisits(order[|order| - 1], verbs)
  }

  function PathVisits(path: string, verbs: seq<string>): (r: seq<Visit>)
    ensures |r| == |verbs| && forall i :: 0 <= i < |verbs| ==> r[i] == Visit(path, verbs[i])
  {
    seq(|verbs|, i requires 0 <= i < |verbs| => Visit(path, verbs[i]))
  }

  /** What one visit yields: newNode for the visit's path and method. */
  type Builder = Visit -> Result<seq<Node>>

  function BuilderOf(doc: Doc, group: nat, strict: bool, x: Externals): Builder {
    (v: Visit) => NodesSpec(doc, group, v.path, v.verb, strict, x)
  }

  /** Every node a builder yields carries the group id and the visit's path and method. */
  ghost predicate Tagged(nb: Builder, group: nat) {
    forall v :: nb(v).Success? ==> forall i :: 0 <= i < |nb(v).value| ==>
      (nb(v).value[i].group == group && nb(v).value[i].path == v.path && nb(v).value[i].verb == v.verb)
  }

  lemma BuilderTagged(doc: Doc, group: nat, strict: bool, x: Externals)
    ensures Tagged(BuilderOf(doc, group, strict, x), group)
  {
    forall v | BuilderOf(doc, group, strict, x)(v).Success?
      ensures var ns := BuilderOf(doc, group, strict, x)(v).value;
        forall i :: 0 <= i < |ns| ==> (ns[i].group == group && ns[i].path == v.path && ns[i].verb == v.verb)
    {
      assert BuilderOf(doc, group, strict, x)(v) == NodesSpec(doc, group, v.path, v.verb, strict, x);
      NodesMeaning(doc, group, v.path, v.verb, strict, x);
    }
  }

  /** The nodes gathered so far, and the DELETE nodes held back for the end. */
  datatype Acc = Acc(nodes: seq<Node>, dels: seq<Node>)

  /** A DELETE batch is put in front of the held-back ones; any other is appended. */
  function GroupFold(nb: Builder, vs: seq<Visit>): Result<Acc>
    decreases |vs|
  {
    if vs == [] then Success(Acc([], []))
    else
      var v := vs[|vs| - 1];
      match GroupFold(nb, vs[..|vs| - 1])
      case Failure(e) => Failure(e)
      case Success(a) =>
        match nb(v)
        case Failure(e) => Failure(e)
        case Success(ns) =>
          if v.verb == "DELETE" then Success(Acc(a.nodes, ns + a.dels)) else Success(Acc(a.nodes + ns, a.dels))
  }

  /** The nodes of one group: everything but DELETE in visit order, then DELETE. */
  function GroupSpec(doc: Doc, group: nat, order: seq<string>, strict: bool, x: Externals): Result<seq<Node>> {
    match GroupFold(BuilderOf(doc, group, strict, x), Visits(order, MethodOrder))
    case Failure(e) => Failure(e)
    case Success(a) => Success(a.nodes + a.dels)
  }

  /** Every node of a group carries its id and one of its paths; held-back nodes are all
      DELETE and the others none. */
  lemma {:induction false} GroupFoldParts(nb: Builder, group: nat, vs: seq<Visit>)
    requires Tagged(nb, group) && GroupFold(nb, vs).Success?
    ensures var a := GroupFold(nb, vs).value;
      (forall i :: 0 <= i < |a.nodes| ==> (a.nodes[i].group == group && a.nodes[i].verb != "DELETE" &&
         exists k :: 0 <= k < |vs| && vs[k].path == a.nodes[i].path)) &&
      (forall i :: 0 <= i < |a.dels| ==> (a.dels[i].group == group && a.dels[i].verb == "DELETE" &&
         exists k :: 0 <= k < |vs| && vs[k].path == a.dels[i].path))
    decreases |vs|
  {
    if vs != [] {
      var pre := vs[..|vs| - 1];
      GroupFoldParts(nb, group, pre);
      assert forall k :: 0 <= k < |pre| ==> vs[k] == pre[k];
    }
  }

  /** The DELETE nodes of a group, latest path first. */
  function Deletes(nb: Builder, order: seq<string>): seq<Node>
    decreases |order|
  {
    if order == [] then []
    else
      var ns := nb(Visit(order[|order| - 1], "DELETE"));
      (if ns.Success? then ns.value else []) + Deletes(nb, order[..|order| - 1])
  }

  lemma VisitsSnoc(order: seq<string>, p: string, verbs: seq<string>)
    ensures Visits(order + [p], verbs) == Visits(order, verbs) + PathVisits(p, verbs)
  {
    assert (order + [p])[..|order|] == order;
  }

  lemma PathVisitsSnoc(vs: seq<Visit>, p: string, verbs: seq<string>)
    requires verbs != []
    ensures (vs + PathVisits(p, verbs))[..|vs| + |verbs| - 1] == vs + PathVisits(p, verbs[..|verbs| - 1])
    ensures (vs + PathVisits(p, verbs))[|vs| + |verbs| - 1] == Visit(p, verbs[|verbs| - 1])
  {
  }

  /** Visiting the methods of one path adds its DELETE batch in front of the held-back
      nodes. */
  lemma {:induction false} PathDeletes(nb: Builder, vs: seq<Visit>, p: string, verbs: seq<string>)
    requires "DELETE" in verbs && forall i, j :: 0 <= i < j < |verbs| ==> verbs[i] != verbs[j]
    requires GroupFold(nb, vs + PathVisits(p, verbs)).Success?
    ensures GroupFold(nb, vs).Success? && nb(Visit(p, "DELETE")).Success?
    ensures GroupFold(nb, vs + PathVisits(p, verbs)).value.dels == nb(Visit(p, "DELETE")).value + GroupFold(nb, vs).value.dels
    decreases |verbs|
  {
    var n := |verbs|;
    var pre := verbs[..n - 1];
    PathVisitsSnoc(vs, p, verbs);
    if verbs[n - 1] == "DELETE" {
      assert "DELETE" !in pre;
      PathWithoutDelete(nb, vs, p, pre);
    } else {
      assert "DELETE" in pre;
      PathDeletes(nb, vs, p, pre);
    }
  }

  lemma {:induction false} PathWithoutDelete(nb: Builder, vs: seq<Visit>, p: string, verbs: seq<string>)
    requires "DELETE" !in verbs
    requires GroupFold(nb, vs + PathVisits(p, verbs)).Success?
    ensures GroupFold(nb, vs).Success?
    ensures GroupFold(nb, vs + PathVisits(p, verbs)).value.dels == GroupFold(nb, vs).value.dels
    decreases |verbs|
  {
    if verbs == [] {
      assert vs + PathVisits(p, verbs) == vs;
    } else {
      PathVisitsSnoc(vs, p, verbs);
      assert verbs[|verbs| - 1] in verbs;
      PathWithoutDelete(nb, vs, p, verbs[..|verbs| - 1]);
    }
  }

  /** DELETE batches come out in reverse path order. */
  lemma {:induction false} DeletesReversed(nb: Builder, order: seq<string>)
    requires GroupFold(nb, Visits(order, MethodOrder)).Success?
    ensures GroupFold(nb, Visits(order, MethodOrder)).value.dels == Deletes(nb, order)
    decreases |order|
  {
    if order != [] {
      var pre := order[..|order| - 1];
      var p := order[|order| - 1];
      assert order == pre + [p];
      VisitsSnoc(pre, p, MethodOrder);
      PathDeletes(nb, Visits(pre, MethodOrder), p, MethodOrder);
      DeletesReversed(nb, pre);
    }
  }

  lemma {:induction false} VisitsPaths(order: seq<string>, verbs: seq<string>)
    ensures forall k :: 0 <= k < |Visits(order, verbs)| ==> Visits(order, verbs)[k].path in order
    decreases |order|
  {
    if order != [] {
      VisitsPaths(order[..|order| - 1], verbs);
    }
  }

  /** In a group every node carries the group id, no DELETE node comes before a node of
      another method, and the DELETE nodes are the batches of the order's paths, latest
      path first. */
  lemma GroupLayout(doc: Doc, group: nat, order: seq<string>, strict: bool, x: Externals)
    requires GroupSpec(doc, group, order, strict, x).Success?
    ensures var ns := GroupSpec(doc, group, order, strict, x).value;
      (forall i, j :: 0 <= i < j < |ns| && ns[i].verb == "DELETE" ==> ns[j].verb == "DELETE") &&
      exists k :: 0 <= k <= |ns| && ns[k..] == Deletes(BuilderOf(doc, group, strict, x), order) &&
        forall i :: 0 <= i < k ==> ns[i].verb != "DELETE"
  {
    var nb := BuilderOf(doc, group, strict, x);
    var vs := Visits(order, MethodOrder);
    BuilderTagged(doc, group, strict, x);
    GroupFoldParts(nb, group, vs);
    DeletesReversed(nb, order);
    var a := GroupFold(nb, vs).value;
    var ns := a.nodes + a.dels;
    assert ns[|a.nodes|..] == a.dels;
  }

  /** Every node of a group carries the group id and one of the group's paths. */
  lemma GroupTags(doc: Doc, group: nat, order: seq<string>, strict: bool, x: Externals)
    requires GroupSpec(doc, group, order, strict, x).Success?
    ensures var ns := GroupSpec(doc, group, order, strict, x).value;
      forall i :: 0 <= i < |ns| ==> ns[i].group == group && ns[i].path in order
  {
    var nb := BuilderOf(doc, group, strict, x);
    var vs := Visits(order, MethodOrder);
    BuilderTagged(doc, group, strict, x);
    GroupFoldParts(nb, group, vs);
    VisitsPaths(order, MethodOrder);
  }

  /** The nodes of one path of a group, method by method. */
  method VisitPath(doc: Doc, group: nat, path: string, verbs: seq<string>, strict: bool, x: Externals,
                   ghost done: seq<Visit>, acc: Acc)
    returns (r: Result<Acc>)
    requires GroupFold(BuilderOf(doc, group, strict, x), done) == Success(acc)
    ensures r == GroupFold(BuilderOf(doc, group, strict, x), done + PathVisits(path, verbs))
  {
    ghost var nb := BuilderOf(doc, group, strict, x);
    ghost var seen := done;
    var nodes, dels := acc.nodes, acc.dels;
    var j := 0;
    while j < |verbs|
      invariant 0 <= j <= |verbs|
      invariant done + PathVisits(path, verbs) == seen + PathVisits(path, verbs[j..])
      invariant GroupFold(nb, seen) == Success(Acc(nodes, dels))
    {
      var ns := NewNode(doc, group, path, verbs[j], strict, x);
      BuilderAt(doc, group, strict, x, Visit(path, verbs[j]), ns);
      VisitStep(nb, done, path, verbs, j, seen, ns);
      seen := seen + [Visit(path, verbs[j])];
      if ns.Failure? {
        return Failure(ns.error);
      }
      if verbs[j] == "DELETE" {
        dels := ns.value + dels;
      } else {
        nodes := nodes + ns.value;
      }
      j := j + 1;
    }
    PathVisitsDone(done, path, verbs, seen);
    r := Success(Acc(nodes, dels));
  }

  /** The builder of a group yields what newNode yields. */
  lemma BuilderAt(doc: Doc, group: nat, strict: bool, x: Externals, v: Visit, ns: Result<seq<Node>>)
    requires ns == NodesSpec(doc, group, v.path, v.verb, strict, x)
    ensures BuilderOf(doc, group, strict, x)(v) == ns
  {
  }

  /** One method of a path: the fold moves one visit on, and a failing batch fails the
      whole path. */
  lemma VisitStep(nb: Builder, done: seq<Visit>, path: string, verbs: seq<string>, j: nat, seen: seq<Visit>,
                  ns: Result<seq<Node>>)
    requires j < |verbs| && nb(Visit(path, verbs[j])) == ns
    requires done + PathVisits(path, verbs) == seen + PathVisits(path, verbs[j..])
    requires GroupFold(nb, seen).Success?
    ensures var seen' := seen + [Visit(path, verbs[j])];
      done + PathVisits(path, verbs) == seen' + PathVisits(path, verbs[j + 1..]) &&
      (ns.Failure? ==> GroupFold(nb, done + PathVisits(path, verbs)) == Failure(ns.error)) &&
      (ns.Success? ==> GroupFold(nb, seen') == Success(
        if verbs[j] == "DELETE" then Acc(GroupFold(nb, seen).value.nodes, ns.value + GroupFold(nb, seen).value.dels)
        else Acc(GroupFold(nb, seen).value.nodes + ns.value, GroupFold(nb, seen).value.dels)))
  {
    var v := Visit(path, verbs[j]);
    var tail := PathVisits(path, verbs[j + 1..]);
    PathVisitsCons(path, verbs[j..]);
    assert verbs[j..][1..] == verbs[j + 1..];
    assert seen + ([v] + tail) == (seen + [v]) + tail;
    FoldSnoc(nb, seen, v);
    if ns.Failure? {
      FoldFailsPrefix(nb, seen + [v], tail);
    }
  }

  lemma PathVisitsDone(done: seq<Visit>, path: string, verbs: seq<string>, seen: seq<Visit>)
    requires done + PathVisits(path, verbs) == seen + PathVisits(path, verbs[|verbs|..])
    ensures seen == done + PathVisits(path, verbs)
  {
    assert PathVisits(path, verbs[|verbs|..]) == [];
  }

  lemma PathVisitsCons(path: string, verbs: seq<string>)
    requires verbs != []
    ensures PathVisits(path, verbs) == [Visit(path, verbs[0])] + PathVisits(path, verbs[1..])
  {
  }

  /** Once the fold fails, later visits keep the failure. */
  lemma {:induction false} FoldFailsPrefix(nb: Builder, pre: seq<Visit>, rest: seq<Visit>)
    requires GroupFold(nb, pre).Failure?
    ensures GroupFold(nb, pre + rest) == GroupFold(nb, pre)
    decreases |rest|
  {
    if rest == [] {
      assert pre + rest == pre;
    } else {
      var last := rest[|rest| - 1];
      FoldFailsPrefix(nb, pre, rest[..|rest| - 1]);
      assert pre + rest == (pre + rest[..|rest| - 1]) + [last];
      FoldSnoc(nb, pre + rest[..|rest| - 1], last);
    }
  }

  /** One more visit: a failure stays, a failing batch fails, a batch is placed by its
      method. */
  lemma FoldSnoc(nb: Builder, vs: seq<Visit>, v: Visit)
    ensures GroupFold(nb, vs).Failure? ==> GroupFold(nb, vs + [v]) == GroupFold(nb, vs)
    ensures GroupFold(nb, vs).Success? && nb(v).Failure? ==> GroupFold(nb, vs + [v]) == Failure(nb(v).error)
    ensures GroupFold(nb, vs).Success? && nb(v).Success? ==>
      GroupFold(nb, vs + [v]) == Success(
        if v.verb == "DELETE" then Acc(GroupFold(nb, vs).value.nodes, nb(v).value + GroupFold(nb, vs).value.dels)
        else Acc(GroupFold(nb, vs).value.nodes + nb(v).value, GroupFold(nb, vs).value.dels))
  {
    assert (vs + [v])[..|vs|] == vs;
  }

  lemma {:induction false} FoldFails(nb: Builder, vs: seq<Visit>, k: nat)
    requires 0 < k <= |vs| && GroupFold(nb, vs[..k]).Failure?
    ensures GroupFold(nb, vs) == GroupFold(nb, vs[..k])
    decreases |vs| - k
  {
    if k < |vs| {
      assert vs[..k + 1][..k] == vs[..k];
      FoldFails(nb, vs, k + 1);
    } else {
      assert vs[..k] == vs;
    }
  }

  /** The nodes of one group, path after path of its order: non-DELETE nodes in visit
      order, then the held-back DELETE nodes. */
  method GroupNodes(doc: Doc, group: nat, order: seq<string>, strict: bool, x: Externals)
    returns (r: Result<seq<Node>>)
    ensures r == GroupSpec(doc, group, order, strict, x)
  {
    var a := FoldOrder(doc, group, order, strict, x);
    if a.Failure? {
      return Failure(a.error);
    }
    r := Success(a.value.nodes + a.value.dels);
  }

  /** The path loop of one group. */
  method FoldOrder(doc: Doc, group: nat, order: seq<string>, strict: bool, x: Externals)
    returns (r: Result<Acc>)
    ensures r == GroupFold(BuilderOf(doc, group, strict, x), Visits(order, MethodOrder))
  {
    ghost var nb := BuilderOf(doc, group, strict, x);
    var acc := Acc([], []);
    ghost var done: seq<Visit> := [];
    var i := 0;
    while i < |order|
      invariant 0 <= i <= |order|
      invariant done == Visits(order[..i], MethodOrder)
      invariant GroupFold(nb, done) == Success(acc)
    {
      VisitsPrefix(order, i);
      var next := VisitPath(doc, group, order[i], MethodOrder, strict, x, done, acc);
      done := done + PathVisits(order[i], MethodOrder);
      if next.Failure? {
        FoldFailsLater(nb, order, i + 1);
        return next;
      }
      acc := next.value;
      i := i + 1;
    }
    assert order[..i] == order;
    r := Success(acc);
  }

  /** The visits of one more path of the order. */
  lemma VisitsPrefix(order: seq<string>, i: nat)
    requires i < |order|
    ensures Visits(order[..i + 1], MethodOrder) == Visits(order[..i], MethodOrder) + PathVisits(order[i], MethodOrder)
  {
    VisitsSnoc(order[..i], order[i], MethodOrder);
    assert order[..i + 1] == order[..i] + [order[i]];
  }

  lemma {:induction false} FoldFailsLater(nb: Builder, order: seq<string>, k: nat)
    requires 0 < k <= |order| && GroupFold(nb, Visits(order[..k], MethodOrder)).Failure?
    ensures GroupFold(nb, Visits(order, MethodOrder)) == GroupFold(nb, Visits(order[..k], MethodOrder))
    decreases |order| - k
  {
    if k < |order| {
      VisitsSnoc(order[..k], order[k], MethodOrder);
      assert order[..k + 1] == order[..k] + [order[k]];
      var vs := Visits(order[..k + 1], MethodOrder);
      var n := |Visits(order[..k], MethodOrder)|;
      assert vs[..n] == Visits(order[..k], MethodOrder);
      FoldFails(nb, vs, n);
      FoldFailsLater(nb, order, k + 1);
    } else {
      assert order[..k] == order;
    }
  }

  // ---------------------------------------------------------------- the grammar

  function OrderFor(orders: map<string, seq<string>>, p: string): seq<string> {
    if p in orders then orders[p] else []
  }

  /** What one group yields, given its id and its order: the group's nodes. */
  type GroupBuilder = (nat, seq<string>) -> Result<seq<Node>>

  function GroupsOf(doc: Doc, strict: bool, x: Externals): GroupBuilder {
    (k: nat, order: seq<string>) => GroupSpec(doc, k, order, strict, x)
  }

  /** The nodes of the first `k` sorted paths, group ids counting from 1. */
  function GrammarSpec(gb: GroupBuilder, sorted: seq<string>, orders: map<string, seq<string>>, k: nat)
    : Result<seq<Node>>
    requires k <= |sorted|
  {
    if k == 0 then Success([])
    else
      match GrammarSpec(gb, sorted, orders, k - 1)
      case Failure(e) => Failure(e)
      case Success(ns) =>
        match gb(k, OrderFor(orders, sorted[k - 1]))
        case Failure(e) => Failure(e)
        case Success(g) => Success(ns + g)
  }

  /** Every node of a group carries the group id and one of the order's paths. */
  ghost predicate GroupsTagged(gb: GroupBuilder) {
    forall k, order :: gb(k, order).Success? ==> forall i :: 0 <= i < |gb(k, order).value| ==>
      (gb(k, order).value[i].group == k && gb(k, order).value[i].path in order)
  }

  lemma GroupsOfTagged(doc: Doc, strict: bool, x: Externals)
    ensures GroupsTagged(GroupsOf(doc, strict, x))
  {
    forall k, order | GroupsOf(doc, strict, x)(k, order).Success?
      ensures var g := GroupsOf(doc, strict, x)(k, order).value;
        forall i :: 0 <= i < |g| ==> (g[i].group == k && g[i].path in order)
    {
      GroupTags(doc, k, order, strict, x);
    }
  }

  /** `gb` builds the groups of `doc`. The link to GroupSpec is used only where a
      GroupSpec term is already present. */
  ghost predicate Builds(gb: GroupBuilder, doc: Doc, strict: bool, x: Externals) {
    forall k: nat, order: seq<string> {:trigger GroupSpec(doc, k, order, strict, x)} ::
      gb(k, order) == GroupSpec(doc, k, order, strict, x)
  }

  lemma GroupsOfBuilds(doc: Doc, strict: bool, x: Externals)
    ensures Builds(GroupsOf(doc, strict, x), doc, strict, x)
  {
  }

  /** Group ids run from 1 to k and never decrease along the nodes, and a node of group g
      belongs to the order of the g-th sorted path. */
  predicate GroupsInOrder(ns: seq<Node>, sorted: seq<string>, orders: map<string, seq<string>>, k: nat)
    requires k <= |sorted|
  {
    (forall i :: 0 <= i < |ns| ==> (1 <= ns[i].group <= k &&
       ns[i].path in OrderFor(orders, sorted[ns[i].group - 1]))) &&
    (forall i, j :: 0 <= i < j < |ns| ==> ns[i].group <= ns[j].group)
  }

  /** The grammar's nodes are grouped: group ids run from 1 to the number of sorted paths,
      never decrease, and a node of group g belongs to the order of the g-th path. */
  lemma GrammarLayout(doc: Doc, sorted: seq<string>, orders: map<string, seq<string>>, strict: bool, x: Externals)
    requires GrammarSpec(GroupsOf(doc, strict, x), sorted, orders, |sorted|).Success?
    ensures GroupsInOrder(GrammarSpec(GroupsOf(doc, strict, x), sorted, orders, |sorted|).value, sorted, orders, |sorted|)
  {
    GroupsOfTagged(doc, strict, x);
    GrammarGroups(GroupsOf(doc, strict, x), sorted, orders, |sorted|);
  }

  lemma {:induction false} GrammarGroups(gb: GroupBuilder, sorted: seq<string>, orders: map<string, seq<string>>, k: nat)
    requires GroupsTagged(gb)
    requires k <= |sorted| && GrammarSpec(gb, sorted, orders, k).Success?
    ensures GroupsInOrder(GrammarSpec(gb, sorted, orders, k).value, sorted, orders, k)
    decreases k
  {
    if k > 0 {
      GrammarGroups(gb, sorted, orders, k - 1);
      var ns := GrammarSpec(gb, sorted, orders, k - 1).value;
      var g := gb(k, OrderFor(orders, sorted[k - 1])).value;
      AppendGroup(ns, g, sorted, orders, k);
    }
  }

  /** Appending group k to the nodes of the groups before it keeps the group ids in
      range and in order. */
  lemma AppendGroup(ns: seq<Node>, g: seq<Node>, sorted: seq<string>, orders: map<string, seq<string>>, k: nat)
    requires 0 < k <= |sorted| && GroupsInOrder(ns, sorted, orders, k - 1)
    requires forall i :: 0 <= i < |g| ==> g[i].group == k && g[i].path in OrderFor(orders, sorted[k - 1])
    ensures GroupsInOrder(ns + g, sorted, orders, k)
  {
    var all := ns + g;
    forall i | 0 <= i < |all|
      ensures 1 <= all[i].group <= k && all[i].path in OrderFor(orders, sorted[all[i].group - 1])
    {
      if i >= |ns| {
        assert all[i] == g[i - |ns|];
      }
    }
  }

  /** generateGrammar: the orders, then one group per sorted path. */
  method GenerateGrammar(doc: Doc, deps: map<string, seq<Item>>, sorted: seq<string>, strict: bool, x: Externals)
    returns (r: Result<seq<Node>>)
    ensures Orders(deps, strict, sorted).Failure? ==> r == Failure(Orders(deps, strict, sorted).error)
    ensures Orders(deps, strict, sorted).Success? ==>
      r == GrammarSpec(GroupsOf(doc, strict, x), sorted, Orders(deps, strict, sorted).value, |sorted|)
  {
    var orders := ComputeOrders(deps, strict, sorted);
    if orders.Failure? {
      return Failure(orders.error);
    }
    GroupsOfBuilds(doc, strict, x);
    r := GroupLoop(doc, sorted, orders.value, strict, x, GroupsOf(doc, strict, x));
  }

  /** The path loop of generateGrammar: group ids count from 1 in sorted order, and the
      first group that panics ends it. */
  method GroupLoop(doc: Doc, sorted: seq<string>, orders: map<string, seq<string>>, strict: bool, x: Externals,
                   ghost gb: GroupBuilder)
    returns (r: Result<seq<Node>>)
    requires Builds(gb, doc, strict, x)
    ensures r == GrammarSpec(gb, sorted, orders, |sorted|)
  {
    var nodes: seq<Node> := [];
    var group := 1;
    while group <= |sorted|
      invariant 1 <= group <= |sorted| + 1
      invariant GrammarSpec(gb, sorted, orders, group - 1) == Success(nodes)
    {
      var g := BuildGroup(doc, group, OrderFor(orders, sorted[group - 1]), strict, x, gb);
      if g.Failure? {
        GrammarFails(gb, sorted, orders, group);
        return Failure(g.error);
      }
      nodes := nodes + g.value;
      group := group + 1;
    }
    r := Success(nodes);
  }

  /** One group of the path loop. */
  method BuildGroup(doc: Doc, group: nat, order: seq<string>, strict: bool, x: Externals, ghost gb: GroupBuilder)
    returns (g: Result<seq<Node>>)
    requires Builds(gb, doc, strict, x)
    ensures g == gb(group, order)
  {
    g := GroupNodes(doc, group, order, strict, x);
  }

  lemma {:induction false} GrammarFails(gb: GroupBuilder, sorted: seq<string>, orders: map<string, seq<string>>, k: nat)
    requires 0 < k <= |sorted| && GrammarSpec(gb, sorted, orders, k).Failure?
    ensures GrammarSpec(gb, sorted, orders, |sorted|) == GrammarSpec(gb, sorted, orders, k)
    decreases |sorted| - k
  {
    if k < |sorted| {
      GrammarFails(gb, sorted, orders, k + 1);
    }
  }
}
