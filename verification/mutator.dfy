/** The mutation engine: how a grammar node's requests are flattened into leaves, how a
    value is rendered as text, which two leaves are picked, and how a picked leaf is
    deleted, changed to another type or passed through the byte mutator. Dependency
    substitution from cached responses runs first, for every leaf.
    Go rewrites leaves through pointers; the model names each leaf by the request it lives
    in and the path to it, and rewrites it there (see `Values.Put`). */
module Mutator {
  import opened Values
  import opened Base
  import opened Api
  import Text
  import KeyPath

  // ---------------------------------------------------------------- rendering

  /** The text of a value as the fuzzer sends it: a string under `decode` is base64-decoded
      when that succeeds; a list is its first element, or all elements joined by ", "
      under `appendList`; a struct is its protojson text. */
  function Render(v: Value, decode: bool, appendList: bool, x: Externals): string
    decreases v, 1
  {
    match v
    case Null => ""
    case Bool(b) => if b then "true" else "false"
    case Num(n) => Text.IntToString(n)
    case Str(s) =>
      if decode then (match x.decode(s) case Some(d) => d case None => s) else s
    case List(items) =>
      if appendList then RenderJoin(v, 0, decode, x)
      else if |items| > 0 then Render(items[0], decode, appendList, x)
      else ""
    case Struct(_) => x.marshal(v)
  }

  function RenderJoin(v: Value, i: nat, decode: bool, x: Externals): string
    requires v.List? && i <= |v.items|
    decreases v, 0, |v.items| - i
  {
    if i == |v.items| then ""
    else
      Render(v.items[i], decode, true, x) + (if i != |v.items| - 1 then ", " else "")
      + RenderJoin(v, i + 1, decode, x)
  }

  function RenderAll(items: seq<Value>, decode: bool, x: Externals): (r: seq<string>)
    ensures |r| == |items|
    ensures forall i :: 0 <= i < |items| ==> r[i] == Render(items[i], decode, true, x)
  {
    seq(|items|, i requires 0 <= i < |items| => Render(items[i], decode, true, x))
  }

  /** A joined list is strings.Join of its rendered elements with ", ". */
  lemma {:induction false} RenderJoinIsJoin(v: Value, i: nat, decode: bool, x: Externals)
    requires v.List? && i <= |v.items|
    ensures RenderJoin(v, i, decode, x) == Text.Join(RenderAll(v.items[i..], decode, x), ", ")
    decreases |v.items| - i
  {
    var parts := RenderAll(v.items[i..], decode, x);
    if i < |v.items| {
      RenderJoinIsJoin(v, i + 1, decode, x);
      assert v.items[i + 1..] == v.items[i..][1..];
      assert parts[1..] == RenderAll(v.items[i + 1..], decode, x);
      if i == |v.items| - 1 {
        assert RenderJoin(v, i + 1, decode, x) == "";
      }
    }
  }

  /** What the sender renders for a string the grammar base64-encoded is the string itself. */
  lemma RenderEncoded(s: string, appendList: bool, x: Externals)
    requires DecodesEncoded(x)
    ensures Render(Str(x.encode(s)), true, appendList, x) == s
  {
    assert x.decode(x.encode(s)) == Some(s);
  }

  /** A rendered number reads back as the same number (for every int64). */
  lemma RenderNumber(n: int, decode: bool, appendList: bool, x: Externals)
    requires Text.MinInt64 <= n <= Text.MaxInt64
    ensures Text.Atoi(Render(Num(n), decode, appendList, x)) == Text.Parsed(n, true)
  {
    Text.AtoiIntToString(n);
  }

  // ---------------------------------------------------------------- flattening

  /** A leaf getKeyValue reports: its key, the request it lives in, and the path to the
      node the fuzzer rewrites (a scalar, or the list holding scalar elements). */
  datatype Leaf = Leaf(key: string, req: nat, path: seq<Step>)

  function Concat(a: Result<seq<Leaf>>, b: Result<seq<Leaf>>): (r: Result<seq<Leaf>>)
    ensures r.Failure? <==> a.Failure? || b.Failure?
    ensures r.Success? ==> r.value == a.value + b.value
  {
    if a.Failure? then a else if b.Failure? then b else Success(a.value + b.value)
  }

  /** getKeyValue(k, v) for the value at path `p` of request `r`. */
  function Flatten(k: string, v: Value, r: nat, p: seq<Step>): Result<seq<Leaf>>
    decreases v, 3
  {
    match v
    case Struct(_) => FlattenFields(v, 0, r, p)
    case List(_) => FlattenItems(k, v, 0, r, p)
    case _ => Success([Leaf(k, r, p)])
  }

  function FlattenFields(v: Value, i: nat, r: nat, p: seq<Step>): Result<seq<Leaf>>
    requires v.Struct? && i <= |v.fields|
    decreases v, 2, |v.fields| - i
  {
    if i == |v.fields| then Success([])
    else
      var f := v.fields[i];
      Concat(Flatten(f.key, f.val, r, p + [Key(f.key)]), FlattenFields(v, i + 1, r, p))
  }

  /** The elements of the list `v` under key `k`: a scalar element stands for the whole
      list, a struct element is flattened, a list element is opened once more. */
  function FlattenItems(k: string, v: Value, j: nat, r: nat, p: seq<Step>): Result<seq<Leaf>>
    requires v.List? && j <= |v.items|
    decreases v, 1, |v.items| - j
  {
    if j == |v.items| then Success([])
    else
      var c := v.items[j];
      var here :=
        match c
        case Struct(_) => FlattenFields(c, 0, r, p + [Index(j)])
        case List(_) => FlattenInner(k, v, j, 0, r, p)
        case _ => Success([Leaf(k, r, p)]);
      Concat(here, FlattenItems(k, v, j + 1, r, p))
  }

  /** The elements of the inner list `v.items[j]`; a third level of list is rejected. */
  function FlattenInner(k: string, v: Value, j: nat, m: nat, r: nat, p: seq<Step>): Result<seq<Leaf>>
    requires v.List? && j < |v.items| && v.items[j].List? && m <= |v.items[j].items|
    decreases v, 0, |v.items[j].items| - m
  {
    var c := v.items[j];
    if m == |c.items| then Success([])
    else
      var d := c.items[m];
      var here :=
        match d
        case Struct(_) => FlattenFields(d, 0, r, p + [Index(j), Index(m)])
        case List(_) => Failure("Invalid: recursive list " + k)
        case _ => Success([Leaf(k, r, p)]);
      Concat(here, FlattenInner(k, v, j, m + 1, r, p))
  }

  /** The leaves of request `r`: its top-level fields, in order. */
  function FlattenRequest(reqs: seq<Request>, r: nat): Result<seq<Leaf>>
    requires r < |reqs|
  {
    FlattenFields(Struct(reqs[r].fields), 0, r, [])
  }

  /** The leaves of the first `k` requests. */
  function FlattenAll(reqs: seq<Request>, k: nat): Result<seq<Leaf>>
    requires k <= |reqs|
  {
    if k == 0 then Success([]) else Concat(FlattenAll(reqs, k - 1), FlattenRequest(reqs, k - 1))
  }

  lemma {:induction false} FlattenAllFails(reqs: seq<Request>, k: nat, m: nat)
    requires k <= m <= |reqs| && FlattenAll(reqs, k).Failure?
    ensures FlattenAll(reqs, m) == FlattenAll(reqs, k)
    decreases m - k
  {
    if k < m {
      FlattenAllFails(reqs, k, m - 1);
    }
  }

  /** Each scalar element of a list gives one leaf, keyed by the list's key and naming the
      whole list. */
  lemma {:induction false} ScalarListLeaves(k: string, v: Value, j: nat, r: nat, p: seq<Step>)
    requires v.List? && j <= |v.items|
    requires forall i :: 0 <= i < |v.items| ==> IsScalar(v.items[i])
    ensures FlattenItems(k, v, j, r, p) == Success(seq(|v.items| - j, _ => Leaf(k, r, p)))
    decreases |v.items| - j
  {
    if j < |v.items| {
      ScalarListLeaves(k, v, j + 1, r, p);
      assert IsScalar(v.items[j]);
      assert FlattenItems(k, v, j, r, p) == Concat(Success([Leaf(k, r, p)]), FlattenItems(k, v, j + 1, r, p));
      assert [Leaf(k, r, p)] + seq(|v.items| - (j + 1), _ => Leaf(k, r, p))
          == seq(|v.items| - j, _ => Leaf(k, r, p));
    } else {
      assert seq(0, _ => Leaf(k, r, p)) == [];
    }
  }

  /** A struct of scalar fields gives one leaf per field, in order, keyed by the field. */
  lemma {:induction false} ScalarFieldLeaves(v: Value, i: nat, r: nat, p: seq<Step>)
    requires v.Struct? && i <= |v.fields|
    requires forall n :: 0 <= n < |v.fields| ==> IsScalar(v.fields[n].val)
    ensures FlattenFields(v, i, r, p) ==
      Success(seq(|v.fields| - i, n requires 0 <= n < |v.fields| - i =>
        Leaf(v.fields[i + n].key, r, p + [Key(v.fields[i + n].key)])))
    decreases |v.fields| - i
  {
    var all := seq(|v.fields| - i, n requires 0 <= n < |v.fields| - i =>
      Leaf(v.fields[i + n].key, r, p + [Key(v.fields[i + n].key)]));
    if i < |v.fields| {
      ScalarFieldLeaves(v, i + 1, r, p);
      var f := v.fields[i];
      assert Flatten(f.key, f.val, r, p + [Key(f.key)]) == Success([Leaf(f.key, r, p + [Key(f.key)])]);
      var rest := seq(|v.fields| - (i + 1), n requires 0 <= n < |v.fields| - (i + 1) =>
        Leaf(v.fields[i + 1 + n].key, r, p + [Key(v.fields[i + 1 + n].key)]));
      assert FlattenFields(v, i, r, p) ==
        Concat(Flatten(f.key, f.val, r, p + [Key(f.key)]), FlattenFields(v, i + 1, r, p));
      assert [Leaf(f.key, r, p + [Key(f.key)])] + rest == all;
    } else {
      assert FlattenFields(v, i, r, p) == Success([]);
      assert all == [];
    }
  }

  lemma {:induction false} InnerRejects(k: string, v: Value, j: nat, m: nat, m0: nat, r: nat, p: seq<Step>)
    requires v.List? && j < |v.items| && v.items[j].List? && m <= m0 < |v.items[j].items|
    requires v.items[j].items[m0].List?
    ensures FlattenInner(k, v, j, m, r, p).Failure?
    decreases m0 - m
  {
    if m < m0 {
      InnerRejects(k, v, j, m + 1, m0, r, p);
    }
  }

  lemma {:induction false} ItemsReject(k: string, v: Value, j: nat, j0: nat, m0: nat, r: nat, p: seq<Step>)
    requires v.List? && j <= j0 < |v.items| && v.items[j0].List? && m0 < |v.items[j0].items|
    requires v.items[j0].items[m0].List?
    ensures FlattenItems(k, v, j, r, p).Failure?
    decreases j0 - j
  {
    if j < j0 {
      ItemsReject(k, v, j + 1, j0, m0, r, p);
    } else {
      InnerRejects(k, v, j0, 0, m0, r, p);
    }
  }

  /** A list nested three deep is always rejected. */
  lemma TripleListRejected(k: string, v: Value, j: nat, m: nat, r: nat, p: seq<Step>)
    requires v.List? && j < |v.items| && v.items[j].List? && m < |v.items[j].items|
    requires v.items[j].items[m].List?
    ensures Flatten(k, v, r, p).Failure?
  {
    ItemsReject(k, v, 0, j, m, r, p);
  }

  /** A leaf of request `r` whose path, in the tree `root`, leads to a scalar or a list. */
  predicate LeafOk(root: Value, r: nat, l: Leaf) {
    l.req == r && At(root, l.path).Some? &&
    (IsScalar(At(root, l.path).value) || At(root, l.path).value.List?)
  }

  predicate AllOk(root: Value, r: nat, ls: seq<Leaf>) {
    forall i :: 0 <= i < |ls| ==> LeafOk(root, r, ls[i])
  }

  lemma {:induction false} AtSnoc(root: Value, p: seq<Step>, s: Step)
    requires At(root, p).Some?
    ensures At(root, p + [s]) == At(At(root, p).value, [s])
    decreases |p|
  {
    if p != [] {
      assert (p + [s])[0] == p[0] && (p + [s])[1..] == p[1..] + [s];
      match p[0]
      case Key(k) =>
        AtSnoc(root.fields[Find(root.fields, k).value].val, p[1..], s);
      case Index(i) =>
        AtSnoc(root.items[i], p[1..], s);
    } else {
      assert p + [s] == [s];
    }
  }

  lemma {:induction false} FlattenSound(root: Value, k: string, v: Value, r: nat, p: seq<Step>)
    requires At(root, p) == Some(v) && WellFormed(v)
    requires Flatten(k, v, r, p).Success?
    ensures AllOk(root, r, Flatten(k, v, r, p).value)
    decreases v, 3
  {
    match v
    case Struct(_) => FieldsSound(root, v, 0, r, p);
    case List(_) => ItemsSound(root, k, v, 0, r, p);
    case _ =>
  }

  lemma {:induction false} FieldsSound(root: Value, v: Value, i: nat, r: nat, p: seq<Step>)
    requires v.Struct? && i <= |v.fields|
    requires At(root, p) == Some(v) && WellFormed(v)
    requires FlattenFields(v, i, r, p).Success?
    ensures AllOk(root, r, FlattenFields(v, i, r, p).value)
    decreases v, 2, |v.fields| - i
  {
    if i < |v.fields| {
      var f := v.fields[i];
      FindDistinct(v.fields, i);
      AtSnoc(root, p, Key(f.key));
      FlattenSound(root, f.key, f.val, r, p + [Key(f.key)]);
      FieldsSound(root, v, i + 1, r, p);
    }
  }

  lemma {:induction false} ItemsSound(root: Value, k: string, v: Value, j: nat, r: nat, p: seq<Step>)
    requires v.List? && j <= |v.items|
    requires At(root, p) == Some(v) && WellFormed(v)
    requires FlattenItems(k, v, j, r, p).Success?
    ensures AllOk(root, r, FlattenItems(k, v, j, r, p).value)
    decreases v, 1, |v.items| - j
  {
    if j < |v.items| {
      var c := v.items[j];
      match c {
      case Struct(_) =>
        AtSnoc(root, p, Index(j));
        FieldsSound(root, c, 0, r, p + [Index(j)]);
      case List(_) =>
        InnerSound(root, k, v, j, 0, r, p);
      case _ =>
      }
      ItemsSound(root, k, v, j + 1, r, p);
    }
  }

  lemma {:induction false} InnerSound(root: Value, k: string, v: Value, j: nat, m: nat, r: nat, p: seq<Step>)
    requires v.List? && j < |v.items| && v.items[j].List? && m <= |v.items[j].items|
    requires At(root, p) == Some(v) && WellFormed(v)
    requires FlattenInner(k, v, j, m, r, p).Success?
    ensures AllOk(root, r, FlattenInner(k, v, j, m, r, p).value)
    decreases v, 0, |v.items[j].items| - m
  {
    var c := v.items[j];
    if m < |c.items| {
      var d := c.items[m];
      if d.Struct? {
        AtSnoc(root, p, Index(j));
        AtSnoc(root, p + [Index(j)], Index(m));
        assert p + [Index(j)] + [Index(m)] == p + [Index(j), Index(m)];
        FieldsSound(root, d, 0, r, p + [Index(j), Index(m)]);
      }
      InnerSound(root, k, v, j, m + 1, r, p);
    }
  }

  /** Every leaf of a well-formed request leads, before any rewrite, to a scalar or a list. */
  lemma RequestLeavesSound(reqs: seq<Request>, r: nat)
    requires r < |reqs| && WellFormed(Struct(reqs[r].fields))
    requires FlattenRequest(reqs, r).Success?
    ensures AllOk(Struct(reqs[r].fields), r, FlattenRequest(reqs, r).value)
  {
    FieldsSound(Struct(reqs[r].fields), Struct(reqs[r].fields), 0, r, []);
  }

  /** Where the leaves of a flattening sit: below the path `p` they start from, one
      step further down a field from the `i`-th on, down an element from the `j`-th on,
      or down an element of the inner list `j` from its `m`-th on. A scalar element names
      the list itself, at `p`. */
  predicate Under(p: seq<Step>, ls: seq<Leaf>) {
    forall n :: 0 <= n < |ls| ==> p <= ls[n].path
  }

  predicate KeyFrom(fs: seq<Field>, i: nat, k: string) {
    exists j :: i <= j < |fs| && fs[j].key == k
  }

  predicate UnderFields(fs: seq<Field>, i: nat, p: seq<Step>, ls: seq<Leaf>) {
    forall n :: 0 <= n < |ls| ==>
      p < ls[n].path && ls[n].path[|p|].Key? && KeyFrom(fs, i, ls[n].path[|p|].name)
  }

  predicate UnderItems(j: nat, p: seq<Step>, ls: seq<Leaf>) {
    forall n :: 0 <= n < |ls| ==>
      ls[n].path == p || (p < ls[n].path && ls[n].path[|p|].Index? && ls[n].path[|p|].i >= j)
  }

  predicate UnderInner(j: nat, m: nat, p: seq<Step>, ls: seq<Leaf>) {
    forall n :: 0 <= n < |ls| ==>
      ls[n].path == p ||
      (p + [Index(j)] < ls[n].path && ls[n].path[|p|] == Index(j) &&
       ls[n].path[|p| + 1].Index? && ls[n].path[|p| + 1].i >= m)
  }

  /** A step below a longer prefix is a step below the shorter one. */
  lemma PrefixStep(p: seq<Step>, s: Step, q: seq<Step>)
    requires p + [s] <= q
    ensures p < q && q[|p|] == s
  {
    assert q[..|p|] == (p + [s])[..|p|];
  }

  lemma {:induction false} FlattenUnder(k: string, v: Value, r: nat, p: seq<Step>)
    requires Flatten(k, v, r, p).Success?
    ensures Under(p, Flatten(k, v, r, p).value)
    decreases v, 3
  {
    match v
    case Struct(_) => FieldsUnder(v, 0, r, p);
    case List(_) => ItemsUnder(k, v, 0, r, p);
    case _ =>
  }

  lemma {:induction false} FieldsUnder(v: Value, i: nat, r: nat, p: seq<Step>)
    requires v.Struct? && i <= |v.fields| && FlattenFields(v, i, r, p).Success?
    ensures UnderFields(v.fields, i, p, FlattenFields(v, i, r, p).value)
    decreases v, 2, |v.fields| - i
  {
    if i < |v.fields| {
      var f := v.fields[i];
      var q := p + [Key(f.key)];
      var a, b := Flatten(f.key, f.val, r, q).value, FlattenFields(v, i + 1, r, p).value;
      FlattenUnder(f.key, f.val, r, q);
      FieldsUnder(v, i + 1, r, p);
      forall n | 0 <= n < |a| ensures p < a[n].path && a[n].path[|p|] == Key(f.key) {
        PrefixStep(p, Key(f.key), a[n].path);
      }
      forall n | 0 <= n < |b| ensures KeyFrom(v.fields, i, b[n].path[|p|].name) {
        var j :| i + 1 <= j < |v.fields| && v.fields[j].key == b[n].path[|p|].name;
      }
    }
  }

  lemma {:induction false} ItemsUnder(k: string, v: Value, j: nat, r: nat, p: seq<Step>)
    requires v.List? && j <= |v.items| && FlattenItems(k, v, j, r, p).Success?
    ensures UnderItems(j, p, FlattenItems(k, v, j, r, p).value)
    decreases v, 1, |v.items| - j
  {
    if j < |v.items| {
      var c := v.items[j];
      ItemsUnder(k, v, j + 1, r, p);
      match c {
      case Struct(_) =>
        var a := FlattenFields(c, 0, r, p + [Index(j)]).value;
        FieldsUnder(c, 0, r, p + [Index(j)]);
        forall n | 0 <= n < |a| ensures p < a[n].path && a[n].path[|p|] == Index(j) {
          PrefixStep(p, Index(j), a[n].path);
        }
      case List(_) =>
        InnerUnder(k, v, j, 0, r, p);
      case _ =>
      }
    }
  }

  lemma {:induction false} InnerUnder(k: string, v: Value, j: nat, m: nat, r: nat, p: seq<Step>)
    requires v.List? && j < |v.items| && v.items[j].List? && m <= |v.items[j].items|
    requires FlattenInner(k, v, j, m, r, p).Success?
    ensures UnderInner(j, m, p, FlattenInner(k, v, j, m, r, p).value)
    decreases v, 0, |v.items[j].items| - m
  {
    var c := v.items[j];
    if m < |c.items| {
      var d := c.items[m];
      InnerUnder(k, v, j, m + 1, r, p);
      if d.Struct? {
        var q := p + [Index(j), Index(m)];
        var a := FlattenFields(d, 0, r, q).value;
        FieldsUnder(d, 0, r, q);
        assert q == p + [Index(j)] + [Index(m)];
        forall n | 0 <= n < |a|
          ensures p + [Index(j)] < a[n].path && a[n].path[|p|] == Index(j) && a[n].path[|p| + 1] == Index(m)
        {
          PrefixStep(p + [Index(j)], Index(m), a[n].path);
          PrefixStep(p, Index(j), a[n].path);
        }
      }
    }
  }

  /** A node that holds a scalar. */
  predicate ScalarAt(root: Value, p: seq<Step>) {
    At(root, p).Some? && IsScalar(At(root, p).value)
  }

  /** No two leaves name the same scalar. */
  predicate NamedOnce(root: Value, ls: seq<Leaf>) {
    forall a, b :: 0 <= a < b < |ls| && ls[a].path == ls[b].path ==> !ScalarAt(root, ls[a].path)
  }

  lemma OnceConcat(root: Value, xs: seq<Leaf>, ys: seq<Leaf>)
    requires NamedOnce(root, xs) && NamedOnce(root, ys)
    requires forall a, b :: 0 <= a < |xs| && 0 <= b < |ys| && xs[a].path == ys[b].path ==> !ScalarAt(root, xs[a].path)
    ensures NamedOnce(root, xs + ys)
  {
    var zs := xs + ys;
    forall a, b | 0 <= a < b < |zs| && zs[a].path == zs[b].path ensures !ScalarAt(root, zs[a].path) {
      if b < |xs| {
        assert zs[a] == xs[a] && zs[b] == xs[b];
      } else if a >= |xs| {
        assert zs[a] == ys[a - |xs|] && zs[b] == ys[b - |xs|];
      } else {
        assert zs[a] == xs[a] && zs[b] == ys[b - |xs|];
      }
    }
  }

  /** In a well-formed request, no two leaves name the same scalar: field keys are
      distinct, element positions are distinct, and the leaf of a scalar element names
      the list, not the scalar. */
  lemma {:induction false} FlattenOnce(root: Value, k: string, v: Value, r: nat, p: seq<Step>)
    requires At(root, p) == Some(v) && WellFormed(v)
    requires Flatten(k, v, r, p).Success?
    ensures NamedOnce(root, Flatten(k, v, r, p).value)
    decreases v, 3
  {
    match v
    case Struct(_) => FieldsOnce(root, v, 0, r, p);
    case List(_) => ItemsOnce(root, k, v, 0, r, p);
    case _ =>
  }

  lemma {:induction false} FieldsOnce(root: Value, v: Value, i: nat, r: nat, p: seq<Step>)
    requires v.Struct? && i <= |v.fields|
    requires At(root, p) == Some(v) && WellFormed(v)
    requires FlattenFields(v, i, r, p).Success?
    ensures NamedOnce(root, FlattenFields(v, i, r, p).value)
    decreases v, 2, |v.fields| - i
  {
    if i < |v.fields| {
      var f := v.fields[i];
      var q := p + [Key(f.key)];
      var a, b := Flatten(f.key, f.val, r, q).value, FlattenFields(v, i + 1, r, p).value;
      FindDistinct(v.fields, i);
      AtSnoc(root, p, Key(f.key));
      FlattenOnce(root, f.key, f.val, r, q);
      FieldsOnce(root, v, i + 1, r, p);
      FlattenUnder(f.key, f.val, r, q);
      FieldsUnder(v, i + 1, r, p);
      forall n, n' | 0 <= n < |a| && 0 <= n' < |b| ensures a[n].path != b[n'].path {
        PrefixStep(p, Key(f.key), a[n].path);
        var j :| i + 1 <= j < |v.fields| && v.fields[j].key == b[n'].path[|p|].name;
      }
      OnceConcat(root, a, b);
    }
  }

  lemma {:induction false} ItemsOnce(root: Value, k: string, v: Value, j: nat, r: nat, p: seq<Step>)
    requires v.List? && j <= |v.items|
    requires At(root, p) == Some(v) && WellFormed(v)
    requires FlattenItems(k, v, j, r, p).Success?
    ensures NamedOnce(root, FlattenItems(k, v, j, r, p).value)
    decreases v, 1, |v.items| - j
  {
    if j < |v.items| {
      var c := v.items[j];
      var b := FlattenItems(k, v, j + 1, r, p).value;
      ItemsOnce(root, k, v, j + 1, r, p);
      ItemsUnder(k, v, j + 1, r, p);
      assert !ScalarAt(root, p);
      match c {
      case Struct(_) =>
        var a := FlattenFields(c, 0, r, p + [Index(j)]).value;
        AtSnoc(root, p, Index(j));
        FieldsOnce(root, c, 0, r, p + [Index(j)]);
        FieldsUnder(c, 0, r, p + [Index(j)]);
        forall n, n' | 0 <= n < |a| && 0 <= n' < |b| ensures a[n].path != b[n'].path {
          PrefixStep(p, Index(j), a[n].path);
        }
        OnceConcat(root, a, b);
      case List(_) =>
        var a := FlattenInner(k, v, j, 0, r, p).value;
        InnerOnce(root, k, v, j, 0, r, p);
        InnerUnder(k, v, j, 0, r, p);
        forall n, n' | 0 <= n < |a| && 0 <= n' < |b| && a[n].path == b[n'].path ensures a[n].path == p {
        }
        OnceConcat(root, a, b);
      case _ =>
        OnceConcat(root, [Leaf(k, r, p)], b);
      }
    }
  }

  lemma {:induction false} InnerOnce(root: Value, k: string, v: Value, j: nat, m: nat, r: nat, p: seq<Step>)
    requires v.List? && j < |v.items| && v.items[j].List? && m <= |v.items[j].items|
    requires At(root, p) == Some(v) && WellFormed(v)
    requires FlattenInner(k, v, j, m, r, p).Success?
    ensures NamedOnce(root, FlattenInner(k, v, j, m, r, p).value)
    decreases v, 0, |v.items[j].items| - m
  {
    var c := v.items[j];
    if m < |c.items| {
      var d := c.items[m];
      var b := FlattenInner(k, v, j, m + 1, r, p).value;
      InnerOnce(root, k, v, j, m + 1, r, p);
      InnerUnder(k, v, j, m + 1, r, p);
      if d.Struct? {
        var q := p + [Index(j), Index(m)];
        var a := FlattenFields(d, 0, r, q).value;
        AtSnoc(root, p, Index(j));
        AtSnoc(root, p + [Index(j)], Index(m));
        assert q == p + [Index(j)] + [Index(m)];
        FieldsOnce(root, d, 0, r, q);
        FieldsUnder(d, 0, r, q);
        forall n, n' | 0 <= n < |a| && 0 <= n' < |b| ensures a[n].path != b[n'].path {
          PrefixStep(p + [Index(j)], Index(m), a[n].path);
        }
        OnceConcat(root, a, b);
      } else {
        OnceConcat(root, [Leaf(k, r, p)], b);
      }
    }
  }

  /** The leaves of a well-formed request name each of its scalars at most once. */
  lemma RequestNamedOnce(reqs: seq<Request>, r: nat)
    requires r < |reqs| && WellFormed(Struct(reqs[r].fields))
    requires FlattenRequest(reqs, r).Success?
    ensures NamedOnce(Struct(reqs[r].fields), FlattenRequest(reqs, r).value)
  {
    FieldsOnce(Struct(reqs[r].fields), Struct(reqs[r].fields), 0, r, []);
  }

  // ---------------------------------------------------------------- selection

  /** The set the selection loop builds from the draws `draws`, each draw standing for
      rand.Intn(n) as `d % n`, stopping once it holds two indices. */
  function Pick(n: nat, draws: seq<nat>, sel: set<nat>): set<nat>
    requires n >= 2
    decreases |draws|
  {
    if |sel| >= 2 || draws == [] then sel else Pick(n, draws[1..], sel + {draws[0] % n})
  }

  /** The two leaves picked, or None when the draws never show two different indices
      (the Go loop would still be drawing). */
  function FirstTwo(n: nat, draws: seq<nat>): (r: Option<set<nat>>)
    requires n >= 2
  {
    var s := Pick(n, draws, {});
    if |s| == 2 then Some(s) else None
  }

  lemma {:induction false} PickBounds(n: nat, draws: seq<nat>, sel: set<nat>)
    requires n >= 2 && |sel| <= 2 && forall i :: i in sel ==> i < n
    ensures sel <= Pick(n, draws, sel) && |Pick(n, draws, sel)| <= 2
    ensures forall i :: i in Pick(n, draws, sel) ==> i < n
    decreases |draws|
  {
    if |sel| < 2 && draws != [] {
      var s' := sel + {draws[0] % n};
      assert |s'| <= |sel| + 1 by {
        assert s' == sel + {draws[0] % n};
      }
      PickBounds(n, draws[1..], s');
    }
  }

  /** Once one index `x` is held, any later draw that differs from it completes the pair. */
  lemma {:induction false} PickAway(n: nat, draws: seq<nat>, sel: set<nat>, x: nat, b: nat)
    requires n >= 2 && sel == {x} && x < n
    requires b < |draws| && draws[b] % n != x
    ensures |Pick(n, draws, sel)| == 2
    decreases |draws|
  {
    var y := draws[0] % n;
    if y == x {
      assert sel + {y} == sel;
      assert draws[1..][b - 1] == draws[b];
      PickAway(n, draws[1..], sel, x, b - 1);
    } else {
      assert |sel + {y}| == 2 by { assert sel + {y} == {x, y}; }
      PickBounds(n, draws[1..], sel + {y});
    }
  }

  /** The selection yields exactly two distinct in-range indices whenever the draws hold
      two different ones, and never anything else. */
  lemma FirstTwoSpec(n: nat, draws: seq<nat>)
    requires n >= 2
    ensures FirstTwo(n, draws).Some? ==>
      |FirstTwo(n, draws).value| == 2 && forall i :: i in FirstTwo(n, draws).value ==> i < n
    ensures (exists a, b :: 0 <= a < b < |draws| && draws[a] % n != draws[b] % n) ==> FirstTwo(n, draws).Some?
  {
    PickBounds(n, draws, {});
    if exists a, b :: 0 <= a < b < |draws| && draws[a] % n != draws[b] % n {
      var a, b :| 0 <= a < b < |draws| && draws[a] % n != draws[b] % n;
      var x := draws[0] % n;
      assert {} + {x} == {x};
      var c := if draws[b] % n != x then b else a;
      assert c >= 1 && draws[1..][c - 1] == draws[c];
      PickAway(n, draws[1..], {x}, x, c - 1);
    }
  }

  /** The selection loop: draw until two different indices are held. */
  method ChooseTwo(n: nat, draws: seq<nat>) returns (r: Option<set<nat>>)
    requires n >= 2
    ensures r == FirstTwo(n, draws)
  {
    var selected: set<nat> := {};
    var k := 0;
    while |selected| < 2 && k < |draws|
      invariant 0 <= k <= |draws|
      invariant Pick(n, draws[k..], selected) == Pick(n, draws, {})
    {
      assert draws[k..][1..] == draws[k + 1..];
      selected := selected + {draws[k] % n};
      k := k + 1;
    }
    r := if |selected| == 2 then Some(selected) else None;
  }

  // ---------------------------------------------------------------- one leaf

  /** Where the fuzzer reads a leaf now; None once its top-level key was deleted. */
  function Get(reqs: seq<Request>, l: Leaf): Option<Value> {
    if l.req < |reqs| then At(Struct(reqs[l.req].fields), l.path) else None
  }

  /** Writes through the leaf's pointer. */
  function SetAt(reqs: seq<Request>, l: Leaf, w: Value): (r: seq<Request>)
    ensures |r| == |reqs|
    ensures forall i :: 0 <= i < |reqs| ==> r[i].typ == reqs[i].typ
    ensures forall i :: 0 <= i < |reqs| && i != l.req ==> r[i] == reqs[i]
  {
    if l.req < |reqs| && l.path != [] then
      match Put(Struct(reqs[l.req].fields), l.path, w)
      case Struct(fs) => reqs[l.req := reqs[l.req].(fields := fs)]
      case _ => reqs
    else reqs
  }

  /** The randomness one leaf consumes: the action rand.Intn(5) (0 delete, 1 change type,
      anything else byte mutation), the type-change coin rand.Intn(2), and the seed of the
      byte mutator. */
  datatype Action = Action(op: nat, coin: nat, seed: nat)

  /** What a node's mutation reads besides its requests: strict mode, the dependency
      items by path, and the response bodies cached for the node's group by path. */
  datatype Context = Context(strict: bool, deps: map<string, seq<Item>>, bodies: map<string, string>, x: Externals)

  /** Whether a leaf's key is a declared dependency key of the node's path. In strict mode
      a path missing from the dependency file is a nil dereference. */
  function Related(ctx: Context, path: string, key: string): (r: Result<bool>)
    ensures !ctx.strict ==> r == Success(false)
    ensures ctx.strict && path in ctx.deps ==>
      r == Success(exists i :: 0 <= i < |ctx.deps[path]| && ctx.deps[path][i].key == key)
    ensures r.Failure? <==> ctx.strict && path !in ctx.deps
  {
    if !ctx.strict then Success(false)
    else if path !in ctx.deps then Failure("nil dependency info: " + path)
    else Success(exists i :: 0 <= i < |ctx.deps[path]| && ctx.deps[path][i].key == key)
  }

  predicate SameKind(a: Value, b: Value) {
    (a.Num? <==> b.Num?) && (a.Str? <==> b.Str?)
  }

  /** One dependency item: when its source path has a cached body, the value at its key
      overwrites a number or a string leaf (strings are stored base64-encoded); a body
      that is not JSON panics, whatever the leaf. */
  function SubstituteOne(v: Value, item: Item, bodies: map<string, string>, x: Externals): (r: Result<Value>)
    ensures r.Success? ==> SameKind(r.value, v)
    ensures r.Success? && !v.Num? && !v.Str? ==> r.value == v
    ensures item.sourcePath !in bodies ==> r == Success(v)
    ensures item.sourcePath in bodies ==>
      var found := x.lookup(bodies[item.sourcePath], KeyPath.Segments(item.sourceKey));
      (r.Failure? <==> found.None?) &&
      (found.None? ==> r.error == "cannot parse JSON: " + bodies[item.sourcePath]) &&
      (found.Some? && v.Num? ==> r.value == Num(found.value.num)) &&
      (found.Some? && v.Str? ==> r.value == Str(x.encode(found.value.str)))
  {
    if item.sourcePath !in bodies then Success(v)
    else
      match x.lookup(bodies[item.sourcePath], KeyPath.Segments(item.sourceKey))
      case None => Failure("cannot parse JSON: " + bodies[item.sourcePath])
      case Some(leaf) =>
        Success(match v
          case Num(_) => Num(leaf.num)
          case Str(_) => Str(x.encode(leaf.str))
          case _ => v)
  }

  /** Every item of the path in turn; the last item with a cached body wins. */
  function SubstituteAll(v: Value, items: seq<Item>, bodies: map<string, string>, x: Externals): (r: Result<Value>)
    ensures r.Success? ==> SameKind(r.value, v)
    ensures r.Success? && !v.Num? && !v.Str? ==> r.value == v
    decreases |items|
  {
    if items == [] then Success(v)
    else
      match SubstituteOne(v, items[0], bodies, x)
      case Failure(e) => Failure(e)
      case Success(w) => SubstituteAll(w, items[1..], bodies, x)
  }

  /** A dependency item whose cached source body is not JSON. */
  predicate Unreadable(item: Item, bodies: map<string, string>, x: Externals) {
    item.sourcePath in bodies && x.lookup(bodies[item.sourcePath], KeyPath.Segments(item.sourceKey)).None?
  }

  /** The position of the first unreadable item. */
  function FirstUnreadable(items: seq<Item>, bodies: map<string, string>, x: Externals): (r: Option<nat>)
    ensures r.Some? ==> r.value < |items| && Unreadable(items[r.value], bodies, x)
    ensures r.Some? ==> forall j :: 0 <= j < r.value ==> !Unreadable(items[j], bodies, x)
    ensures r.None? ==> forall j :: 0 <= j < |items| ==> !Unreadable(items[j], bodies, x)
  {
    if items == [] then None
    else if Unreadable(items[0], bodies, x) then Some(0)
    else
      match FirstUnreadable(items[1..], bodies, x)
      case Some(j) => Some(j + 1)
      case None => None
  }

  /** The position of the last item whose source body is cached. */
  function LastCached(items: seq<Item>, bodies: map<string, string>): (r: Option<nat>)
    ensures r.Some? ==> r.value < |items| && items[r.value].sourcePath in bodies
    ensures r.Some? ==> forall j :: r.value < j < |items| ==> items[j].sourcePath !in bodies
    ensures r.None? ==> forall j :: 0 <= j < |items| ==> items[j].sourcePath !in bodies
  {
    if items == [] then None
    else
      match LastCached(items[1..], bodies)
      case Some(j) => Some(j + 1)
      case None => if items[0].sourcePath in bodies then Some(0) else None
  }

  /** Substitution from a cached body reads only the kind of the leaf it overwrites. */
  lemma SubstituteOneKindOnly(v: Value, w: Value, item: Item, bodies: map<string, string>, x: Externals)
    requires item.sourcePath in bodies
    requires SameKind(w, v) && (!v.Num? && !v.Str? ==> w == v)
    ensures SubstituteOne(w, item, bodies, x) == SubstituteOne(v, item, bodies, x)
  {
  }

  /** The whole chain fails with the message of its first unreadable item; otherwise only
      the last item with a cached body decides the leaf. */
  lemma {:induction false} SubstituteAllMeaning(v: Value, items: seq<Item>, bodies: map<string, string>, x: Externals)
    ensures FirstUnreadable(items, bodies, x).Some? ==>
      SubstituteAll(v, items, bodies, x)
        == Failure("cannot parse JSON: " + bodies[items[FirstUnreadable(items, bodies, x).value].sourcePath])
    ensures FirstUnreadable(items, bodies, x).None? ==>
      SubstituteAll(v, items, bodies, x)
        == if LastCached(items, bodies).None? then Success(v)
           else SubstituteOne(v, items[LastCached(items, bodies).value], bodies, x)
    decreases |items|
  {
    if items != [] {
      var one := SubstituteOne(v, items[0], bodies, x);
      if one.Failure? {
        assert Unreadable(items[0], bodies, x);
        assert FirstUnreadable(items, bodies, x) == Some(0);
      } else {
        var w, rest := one.value, items[1..];
        assert !Unreadable(items[0], bodies, x);
        assert SubstituteAll(v, items, bodies, x) == SubstituteAll(w, rest, bodies, x);
        SubstituteAllMeaning(w, rest, bodies, x);
        var fu, lc := FirstUnreadable(rest, bodies, x), LastCached(rest, bodies);
        if fu.Some? {
          assert FirstUnreadable(items, bodies, x) == Some(fu.value + 1);
          assert items[fu.value + 1] == rest[fu.value];
        } else if lc.Some? {
          assert LastCached(items, bodies) == Some(lc.value + 1);
          assert items[lc.value + 1] == rest[lc.value];
          SubstituteOneKindOnly(v, w, rest[lc.value], bodies, x);
        } else if items[0].sourcePath in bodies {
          assert LastCached(items, bodies) == Some(0);
        } else {
          assert LastCached(items, bodies) == None;
        }
      }
    }
  }

  /** The first byte of a rendering, 0 when it is empty. */
  function FirstByte(s: string): (b: int)
    ensures 0 <= b < 256
  {
    if |s| > 0 then Text.Bytes(s)[0] else 0
  }

  predicate EvenFirst(s: string) {
    |s| > 0 && FirstByte(s) % 2 == 0
  }

  /** Type change, keyed on the first byte of the rendered leaf and a coin. */
  function ChangeType(v: Value, rendered: string, coin: nat, x: Externals): (r: Value)
    ensures !v.Num? && !v.Str? && !v.Bool? ==> r == v
    ensures v.Num? ==> (r.Num? || r.Bool?) && (coin == 0 <==> r.Bool?)
    ensures v.Str? ==> (r.Num? || r.Bool?) && (coin == 0 <==> r.Num?)
    ensures v.Bool? ==> (r.Num? || r.Str?) && (coin == 0 <==> r.Str?)
    ensures IsScalar(v) && r.Num? ==> r.n == FirstByte(rendered)
    ensures IsScalar(v) && r.Bool? ==> r.b == EvenFirst(rendered)
    ensures IsScalar(v) && r.Str? ==> r.s == x.encode(rendered)
    ensures (v.Num? || v.Str? || v.Bool?) && rendered == [] ==> r == Num(0) || r == Bool(false) || r == Str(x.encode([]))
  {
    match v
    case Num(_) => if coin == 0 then Bool(EvenFirst(rendered)) else Num(FirstByte(rendered))
    case Str(_) => if coin == 0 then Num(FirstByte(rendered)) else Bool(EvenFirst(rendered))
    case Bool(_) => if coin == 0 then Str(x.encode(rendered)) else Num(FirstByte(rendered))
    case _ => v
  }

  /** Re-wrapping the byte mutator's output in the leaf's own type. */
  function Rewrap(v: Value, mv: string, x: Externals): (r: Value)
    ensures SameKind(r, v) && (r.Bool? <==> v.Bool?)
    ensures !v.Num? && !v.Str? && !v.Bool? ==> r == v
    ensures r.Num? ==> r.n == FirstByte(mv)
    ensures r.Bool? ==> r.b == EvenFirst(mv)
    ensures r.Str? ==> r.s == x.encode(mv)
  {
    match v
    case Bool(_) => Bool(EvenFirst(mv))
    case Num(_) => Num(FirstByte(mv))
    case Str(_) => Str(x.encode(mv))
    case _ => v
  }

  /** A mutated string leaf is sent as exactly the mutator's output. */
  lemma RewrapSendsMutation(s: string, mv: string, x: Externals)
    requires DecodesEncoded(x)
    ensures Render(Rewrap(Str(s), mv, x), true, true, x) == mv
  {
    RenderEncoded(mv, true, x);
  }

  /** A bool turned into a string is sent as its old rendering. */
  lemma BoolToStringSendsText(b: bool, x: Externals)
    requires DecodesEncoded(x)
    ensures Render(ChangeType(Bool(b), Render(Bool(b), true, false, x), 0, x), true, true, x)
         == (if b then "true" else "false")
  {
    RenderEncoded(if b then "true" else "false", true, x);
  }

  predicate HasKey(q: Request, k: string) {
    exists i :: 0 <= i < |q.fields| && q.fields[i].key == k
  }

  function FirstWithKey(reqs: seq<Request>, k: string): (r: Option<nat>)
    ensures r.Some? ==> r.value < |reqs| && HasKey(reqs[r.value], k)
    ensures r.Some? ==> forall i :: 0 <= i < r.value ==> !HasKey(reqs[i], k)
    ensures r.None? ==> forall i :: 0 <= i < |reqs| ==> !HasKey(reqs[i], k)
  {
    if reqs == [] then None
    else if HasKey(reqs[0], k) then Some(0)
    else match FirstWithKey(reqs[1..], k)
      case Some(j) => Some(j + 1)
      case None => None
  }

  /** Delete: the key leaves the first request whose top-level fields hold it, and nothing
      else changes. */
  function DeleteKey(reqs: seq<Request>, k: string): (r: seq<Request>)
    ensures |r| == |reqs|
  {
    if reqs == [] then []
    else if HasKey(reqs[0], k) then [reqs[0].(fields := RemoveKey(reqs[0].fields, k))] + reqs[1..]
    else [reqs[0]] + DeleteKey(reqs[1..], k)
  }

  lemma {:induction false} DeleteKeyFirst(reqs: seq<Request>, k: string)
    ensures FirstWithKey(reqs, k).None? ==> DeleteKey(reqs, k) == reqs
    ensures FirstWithKey(reqs, k).Some? ==>
      var j := FirstWithKey(reqs, k).value;
      DeleteKey(reqs, k) == reqs[j := reqs[j].(fields := RemoveKey(reqs[j].fields, k))]
  {
    if reqs == [] {
    } else if HasKey(reqs[0], k) {
      UpdateHead(reqs, reqs[0].(fields := RemoveKey(reqs[0].fields, k)));
    } else {
      var t := reqs[1..];
      DeleteKeyFirst(t, k);
      match FirstWithKey(t, k)
      case None =>
        UpdateNone(reqs);
      case Some(j) =>
        UpdateTail(reqs, j, t[j].(fields := RemoveKey(t[j].fields, k)));
    }
  }

  lemma UpdateHead<T>(s: seq<T>, v: T)
    requires s != []
    ensures [v] + s[1..] == s[0 := v]
  {
  }

  lemma UpdateNone<T>(s: seq<T>)
    requires s != []
    ensures [s[0]] + s[1..] == s
  {
  }

  lemma UpdateTail<T>(s: seq<T>, j: nat, v: T)
    requires j + 1 < |s|
    ensures [s[0]] + s[1..][j := v] == s[j + 1 := v]
  {
  }

  /** The action step for a leaf that reaches it. */
  function Act(reqs: seq<Request>, l: Leaf, a: Action, x: Externals): seq<Request> {
    if a.op == 0 then DeleteKey(reqs, l.key)
    else
      match Get(reqs, l)
      case None => reqs
      case Some(cur) =>
        var v := Render(cur, true, false, x);
        if a.op == 1 then SetAt(reqs, l, ChangeType(cur, v, a.coin, x))
        else SetAt(reqs, l, Rewrap(cur, x.mutate(a.seed, v), x))
  }

  /** Dependency substitution for a leaf whose key is related. A leaf whose key was
      deleted is no longer part of the request, but its lookups still run. */
  function Substitute(reqs: seq<Request>, l: Leaf, items: seq<Item>, ctx: Context): Result<seq<Request>> {
    var cur := Get(reqs, l);
    match SubstituteAll(if cur.Some? then cur.value else Null, items, ctx.bodies, ctx.x)
    case Failure(e) => Failure(e)
    case Success(w) => Success(if cur.Some? then SetAt(reqs, l, w) else reqs)
  }

  /** Everything the fuzzer does for leaf `i` of a node. */
  function LeafStep(reqs: seq<Request>, path: string, leaves: seq<Leaf>, i: nat, sel: set<nat>,
                    ctx: Context, a: Action): Result<seq<Request>>
    requires i < |leaves|
  {
    var l := leaves[i];
    match Related(ctx, path, l.key)
    case Failure(e) => Failure(e)
    case Success(rel) =>
      var sub := if rel then Substitute(reqs, l, ctx.deps[path], ctx) else Success(reqs);
      match sub
      case Failure(e) => Failure(e)
      case Success(reqs1) =>
        if |leaves| >= 2 && i !in sel then Success(reqs1)
        else Success(Act(reqs1, l, a, ctx.x))
  }

  /** The requests after the first `i` leaves. */
  function Steps(reqs: seq<Request>, path: string, leaves: seq<Leaf>, sel: set<nat>, ctx: Context,
                 act: nat -> Action, i: nat): Result<seq<Request>>
    requires i <= |leaves|
  {
    if i == 0 then Success(reqs)
    else
      match Steps(reqs, path, leaves, sel, ctx, act, i - 1)
      case Failure(e) => Failure(e)
      case Success(cur) => LeafStep(cur, path, leaves, i - 1, sel, ctx, act(i - 1))
  }

  const Stalled := "selection draws exhausted"

  /** A node after its mutation round. */
  function AdoptNodeSpec(node: Node, ctx: Context, draws: seq<nat>, act: nat -> Action): Result<Node> {
    match FlattenAll(node.requests, |node.requests|)
    case Failure(e) => Failure(e)
    case Success(leaves) =>
      var sel := if |leaves| >= 2 then FirstTwo(|leaves|, draws) else Some({});
      if sel.None? then Failure(Stalled)
      else
        match Steps(node.requests, node.path, leaves, sel.value, ctx, act, |leaves|)
        case Failure(e) => Failure(e)
        case Success(reqs) => Success(node.(requests := reqs))
  }

  /** The leaves of every request of a node, request by request. */
  method CollectLeaves(reqs: seq<Request>) returns (r: Result<seq<Leaf>>)
    ensures r == FlattenAll(reqs, |reqs|)
  {
    var leaves: seq<Leaf> := [];
    var k := 0;
    while k < |reqs|
      invariant 0 <= k <= |reqs|
      invariant FlattenAll(reqs, k) == Success(leaves)
    {
      var ls := FlattenRequest(reqs, k);
      if ls.Failure? {
        FlattenAllFails(reqs, k + 1, |reqs|);
        return Failure(ls.error);
      }
      leaves := leaves + ls.value;
      k := k + 1;
    }
    r := Success(leaves);
  }

  /** Substitution, then the action for the selected leaves, leaf by leaf. */
  method MutateLeaves(reqs0: seq<Request>, path: string, leaves: seq<Leaf>, selected: set<nat>,
                      ctx: Context, act: nat -> Action) returns (r: Result<seq<Request>>)
    ensures r == Steps(reqs0, path, leaves, selected, ctx, act, |leaves|)
  {
    var reqs := reqs0;
    var i := 0;
    while i < |leaves|
      invariant 0 <= i <= |leaves|
      invariant Steps(reqs0, path, leaves, selected, ctx, act, i) == Success(reqs)
    {
      var l := leaves[i];
      var rel := Related(ctx, path, l.key);
      if rel.Failure? {
        StepsFail(reqs0, path, leaves, selected, ctx, act, i + 1, |leaves|);
        return Failure(rel.error);
      }
      if rel.value {
        var sub := Substitute(reqs, l, ctx.deps[path], ctx);
        if sub.Failure? {
          StepsFail(reqs0, path, leaves, selected, ctx, act, i + 1, |leaves|);
          return Failure(sub.error);
        }
        reqs := sub.value;
      }
      if |leaves| < 2 || i in selected {
        reqs := Act(reqs, l, act(i), ctx.x);
      }
      i := i + 1;
    }
    r := Success(reqs);
  }

  /** One node's mutation round, as adoptStrategies runs it. */
  method AdoptNode(node: Node, ctx: Context, draws: seq<nat>, act: nat -> Action) returns (r: Result<Node>)
    ensures r == AdoptNodeSpec(node, ctx, draws, act)
  {
    var leaves := CollectLeaves(node.requests);
    if leaves.Failure? {
      return Failure(leaves.error);
    }
    var selected: set<nat> := {};
    if |leaves.value| >= 2 {
      var chosen := ChooseTwo(|leaves.value|, draws);
      if chosen.None? {
        return Failure(Stalled);
      }
      selected := chosen.value;
    }
    var reqs := MutateLeaves(node.requests, node.path, leaves.value, selected, ctx, act);
    if reqs.Failure? {
      return Failure(reqs.error);
    }
    r := Success(node.(requests := reqs.value));
  }

  lemma {:induction false} StepsFail(reqs: seq<Request>, path: string, leaves: seq<Leaf>, sel: set<nat>,
                                     ctx: Context, act: nat -> Action, k: nat, m: nat)
    requires k <= m <= |leaves| && Steps(reqs, path, leaves, sel, ctx, act, k).Failure?
    ensures Steps(reqs, path, leaves, sel, ctx, act, m) == Steps(reqs, path, leaves, sel, ctx, act, k)
    decreases m - k
  {
    if k < m {
      StepsFail(reqs, path, leaves, sel, ctx, act, k, m - 1);
    }
  }

  /** The randomness of a whole mutation round: per node, the selection draws and the
      per-leaf actions. */
  datatype Dice = Dice(draws: nat -> seq<nat>, act: nat -> nat -> Action)

  /** What a mutation round reads besides the grammar: strict mode, the dependency items
      by path, the cached response bodies by group and path, the codecs and the dice. */
  datatype Round = Round(strict: bool, deps: map<string, seq<Item>>,
                         groups: map<nat, map<string, string>>, x: Externals, dice: Dice)

  function NodeContext(rd: Round, group: nat): Context {
    Context(rd.strict, rd.deps, if group in rd.groups then rd.groups[group] else map[], rd.x)
  }

  /** Node `k`'s mutation round. */
  function NodeRound(nodes: seq<Node>, rd: Round, k: nat): Result<Node>
    requires k < |nodes|
  {
    AdoptNodeSpec(nodes[k], NodeContext(rd, nodes[k].group), rd.dice.draws(k), rd.dice.act(k))
  }

  /** `round` gives each node's mutation round. The link to NodeRound is used only where
      a NodeRound term is already present. */
  ghost predicate RoundOf(round: nat -> Result<Node>, nodes: seq<Node>, rd: Round) {
    forall k {:trigger NodeRound(nodes, rd, k)} :: 0 <= k < |nodes| ==> round(k) == NodeRound(nodes, rd, k)
  }

  /** adoptStrategies: every node of the grammar in turn. The round stops at the first
      node whose mutation panics; otherwise each node is replaced by its mutated self. */
  method AdoptStrategies(nodes: seq<Node>, rd: Round) returns (r: Result<seq<Node>>)
    ensures r.Success? ==>
      (|r.value| == |nodes| && forall k :: 0 <= k < |nodes| ==> NodeRound(nodes, rd, k) == Success(r.value[k]))
    ensures r.Failure? ==>
      (exists k :: 0 <= k < |nodes| && NodeRound(nodes, rd, k) == Failure(r.error) &&
         (forall j :: 0 <= j < k ==> NodeRound(nodes, rd, j).Success?))
  {
    ghost var round := (k: nat) => if k < |nodes| then NodeRound(nodes, rd, k) else Failure("");
    r := AdoptLoop(nodes, rd, round);
  }

  /** The node loop of adoptStrategies, stated on the rounds it runs. */
  method AdoptLoop(nodes: seq<Node>, rd: Round, ghost round: nat -> Result<Node>) returns (r: Result<seq<Node>>)
    requires RoundOf(round, nodes, rd)
    ensures r.Success? ==> (|r.value| == |nodes| && forall k :: 0 <= k < |nodes| ==> round(k) == Success(r.value[k]))
    ensures r.Failure? ==>
      (exists k :: 0 <= k < |nodes| && round(k) == Failure(r.error) && (forall j :: 0 <= j < k ==> round(j).Success?))
  {
    var done: seq<Node> := [];
    var k := 0;
    while k < |nodes|
      invariant 0 <= k <= |nodes| && |done| == k
      invariant forall j :: 0 <= j < k ==> round(j) == Success(done[j])
    {
      var n' := AdoptAt(nodes, rd, k, round);
      if n'.Failure? {
        return Failure(n'.error);
      }
      done := done + [n'.value];
      k := k + 1;
    }
    r := Success(done);
  }

  /** Node `k`'s round, run. */
  method AdoptAt(nodes: seq<Node>, rd: Round, k: nat, ghost round: nat -> Result<Node>) returns (r: Result<Node>)
    requires k < |nodes| && RoundOf(round, nodes, rd)
    ensures r == round(k)
  {
    var n := nodes[k];
    r := AdoptNode(n, NodeContext(rd, n.group), rd.dice.draws(k), rd.dice.act(k));
    assert r == NodeRound(nodes, rd, k);
  }

  // ---------------------------------------------------------------- what a round keeps

  /** Two request lists with the same locations, in the same order. */
  predicate SameShape(a: seq<Request>, b: seq<Request>) {
    |a| == |b| && forall i :: 0 <= i < |a| ==> a[i].typ == b[i].typ
  }

  /** Every top-level key of `b` is one of `a`'s, request by request. */
  predicate KeysWithin(b: seq<Request>, a: seq<Request>)
    requires |a| == |b|
  {
    forall i, j :: 0 <= i < |b| && 0 <= j < |b[i].fields| ==> HasKey(a[i], b[i].fields[j].key)
  }

  lemma PutKeepsKeys(fs: seq<Field>, p: seq<Step>, w: Value)
    requires p != []
    ensures Put(Struct(fs), p, w).Struct?
    ensures |Put(Struct(fs), p, w).fields| == |fs|
    ensures forall i :: 0 <= i < |fs| ==> Put(Struct(fs), p, w).fields[i].key == fs[i].key
  {
  }

  lemma SetAtKeepsKeys(reqs: seq<Request>, l: Leaf, w: Value)
    ensures SameShape(reqs, SetAt(reqs, l, w)) && KeysWithin(SetAt(reqs, l, w), reqs)
  {
    var r := SetAt(reqs, l, w);
    if l.req < |reqs| && l.path != [] {
      PutKeepsKeys(reqs[l.req].fields, l.path, w);
    }
    forall i, j | 0 <= i < |r| && 0 <= j < |r[i].fields|
      ensures HasKey(reqs[i], r[i].fields[j].key)
    {
      assert reqs[i].fields[j].key == r[i].fields[j].key;
    }
  }

  lemma DeleteKeepsKeys(reqs: seq<Request>, k: string)
    ensures SameShape(reqs, DeleteKey(reqs, k)) && KeysWithin(DeleteKey(reqs, k), reqs)
  {
    var r := DeleteKey(reqs, k);
    DeleteKeyFirst(reqs, k);
    forall i, j | 0 <= i < |r| && 0 <= j < |r[i].fields|
      ensures HasKey(reqs[i], r[i].fields[j].key)
    {
      var f := r[i].fields[j];
      if r[i] != reqs[i] {
        var jj := FirstWithKey(reqs, k).value;
        assert i == jj && r[i].fields == RemoveKey(reqs[i].fields, k);
        assert f in reqs[i].fields;
        var n :| 0 <= n < |reqs[i].fields| && reqs[i].fields[n] == f;
        assert reqs[i].fields[n].key == f.key;
      } else {
        assert f == reqs[i].fields[j];
      }
    }
  }

  lemma LeafStepKeepsKeys(reqs: seq<Request>, path: string, leaves: seq<Leaf>, i: nat, sel: set<nat>,
                          ctx: Context, a: Action)
    requires i < |leaves|
    requires LeafStep(reqs, path, leaves, i, sel, ctx, a).Success?
    ensures SameShape(reqs, LeafStep(reqs, path, leaves, i, sel, ctx, a).value)
    ensures KeysWithin(LeafStep(reqs, path, leaves, i, sel, ctx, a).value, reqs)
  {
    var l := leaves[i];
    var rel := Related(ctx, path, l.key).value;
    var reqs1 := reqs;
    if rel {
      var cur := Get(reqs, l);
      var w := SubstituteAll(if cur.Some? then cur.value else Null, ctx.deps[path], ctx.bodies, ctx.x);
      if cur.Some? {
        SetAtKeepsKeys(reqs, l, w.value);
      }
      reqs1 := Substitute(reqs, l, ctx.deps[path], ctx).value;
    }
    assert SameShape(reqs, reqs1) && KeysWithin(reqs1, reqs);
    if !(|leaves| >= 2 && i !in sel) {
      var reqs2 := Act(reqs1, l, a, ctx.x);
      if a.op == 0 {
        DeleteKeepsKeys(reqs1, l.key);
      } else if Get(reqs1, l).Some? {
        var cur := Get(reqs1, l).value;
        var v := Render(cur, true, false, ctx.x);
        var w := if a.op == 1 then ChangeType(cur, v, a.coin, ctx.x) else Rewrap(cur, ctx.x.mutate(a.seed, v), ctx.x);
        SetAtKeepsKeys(reqs1, l, w);
      }
      KeysWithinTrans(reqs, reqs1, reqs2);
    }
  }

  lemma KeysWithinTrans(a: seq<Request>, b: seq<Request>, c: seq<Request>)
    requires SameShape(a, b) && SameShape(b, c) && KeysWithin(b, a) && KeysWithin(c, b)
    ensures SameShape(a, c) && KeysWithin(c, a)
  {
    forall i, j | 0 <= i < |c| && 0 <= j < |c[i].fields|
      ensures HasKey(a[i], c[i].fields[j].key)
    {
      var k := c[i].fields[j].key;
      assert HasKey(b[i], k);
      var n :| 0 <= n < |b[i].fields| && b[i].fields[n].key == k;
      assert HasKey(a[i], b[i].fields[n].key);
    }
  }

  lemma {:induction false} StepsKeepKeys(reqs: seq<Request>, path: string, leaves: seq<Leaf>, sel: set<nat>,
                                         ctx: Context, act: nat -> Action, i: nat)
    requires i <= |leaves| && Steps(reqs, path, leaves, sel, ctx, act, i).Success?
    ensures SameShape(reqs, Steps(reqs, path, leaves, sel, ctx, act, i).value)
    ensures KeysWithin(Steps(reqs, path, leaves, sel, ctx, act, i).value, reqs)
  {
    if i == 0 {
      KeysWithinRefl(reqs);
    } else {
      var cur := Steps(reqs, path, leaves, sel, ctx, act, i - 1).value;
      StepsKeepKeys(reqs, path, leaves, sel, ctx, act, i - 1);
      LeafStepKeepsKeys(cur, path, leaves, i - 1, sel, ctx, act(i - 1));
      KeysWithinTrans(reqs, cur, Steps(reqs, path, leaves, sel, ctx, act, i).value);
    }
  }

  lemma KeysWithinRefl(a: seq<Request>)
    ensures SameShape(a, a) && KeysWithin(a, a)
  {
    forall i, j | 0 <= i < |a| && 0 <= j < |a[i].fields|
      ensures HasKey(a[i], a[i].fields[j].key)
    {
    }
  }

  /** A mutation round keeps the node's group, path, method and request locations, and
      only ever removes top-level keys: nothing is added, nested keys are never removed. */
  lemma AdoptNodeKeepsShape(node: Node, ctx: Context, draws: seq<nat>, act: nat -> Action)
    requires AdoptNodeSpec(node, ctx, draws, act).Success?
    ensures var n' := AdoptNodeSpec(node, ctx, draws, act).value;
      n'.group == node.group && n'.path == node.path && n'.verb == node.verb &&
      SameShape(node.requests, n'.requests) && KeysWithin(n'.requests, node.requests)
  {
    var leaves := FlattenAll(node.requests, |node.requests|).value;
    var sel := if |leaves| >= 2 then FirstTwo(|leaves|, draws) else Some({});
    StepsKeepKeys(node.requests, node.path, leaves, sel.value, ctx, act, |leaves|);
  }

  /** A leaf that is neither selected nor related is left alone, when there are at least
      two leaves; with fewer, the only leaf always reaches the action step. */
  lemma SelectionGatesAction(reqs: seq<Request>, path: string, leaves: seq<Leaf>, i: nat, sel: set<nat>,
                             ctx: Context, a: Action)
    requires i < |leaves|
    requires Related(ctx, path, leaves[i].key) == Success(false)
    ensures |leaves| >= 2 && i !in sel ==> LeafStep(reqs, path, leaves, i, sel, ctx, a) == Success(reqs)
    ensures |leaves| < 2 ==> LeafStep(reqs, path, leaves, i, sel, ctx, a) == Success(Act(reqs, leaves[i], a, ctx.x))
  {
  }
}
