/** The value tree that requests carry (protobuf's structpb.Value), plus the Option and
    Result wrappers the model uses for absent values and for Go panics. */
module Values {

  datatype Option<T> = None | Some(value: T)

  /** A Go panic, or an error return, carries its message. */
  datatype Result<T> = Success(value: T) | Failure(error: string)

  /** A struct is a sequence of fields in the order Go's map iteration visits them. */
  datatype Value =
    | Null
    | Bool(b: bool)
    | Num(n: int)
    | Str(s: string)
    | List(items: seq<Value>)
    | Struct(fields: seq<Field>)

  datatype Field = Field(key: string, val: Value)

  predicate IsScalar(v: Value) {
    v.Null? || v.Bool? || v.Num? || v.Str?
  }

  function Keys(fs: seq<Field>): (ks: seq<string>)
    ensures |ks| == |fs|
    ensures forall i :: 0 <= i < |fs| ==> ks[i] == fs[i].key
  {
    seq(|fs|, i requires 0 <= i < |fs| => fs[i].key)
  }

  predicate DistinctKeys(fs: seq<Field>) {
    forall i, j :: 0 <= i < j < |fs| ==> fs[i].key != fs[j].key
  }

  /** A struct, as a Go map, never holds one key twice. */
  predicate WellFormed(v: Value)
    decreases v
  {
    match v
    case List(items) => forall i :: 0 <= i < |items| ==> WellFormed(items[i])
    case Struct(fs) => DistinctKeys(fs) && forall i :: 0 <= i < |fs| ==> WellFormed(fs[i].val)
    case _ => true
  }

  /** The position of the first field named `k`. */
  function Find(fs: seq<Field>, k: string): (r: Option<nat>)
    ensures r.Some? ==> r.value < |fs| && fs[r.value].key == k
    ensures r.Some? ==> forall j :: 0 <= j < r.value ==> fs[j].key != k
    ensures r.None? <==> forall j :: 0 <= j < |fs| ==> fs[j].key != k
  {
    if fs == [] then None
    else if fs[0].key == k then Some(0)
    else match Find(fs[1..], k)
      case Some(j) => Some(j + 1)
      case None => None
  }

  lemma FindDistinct(fs: seq<Field>, i: nat)
    requires DistinctKeys(fs) && i < |fs|
    ensures Find(fs, fs[i].key) == Some(i)
  {
  }

  /** Renaming nothing keeps every lookup where it was. */
  lemma FindSameKeys(fs: seq<Field>, gs: seq<Field>, k: string)
    requires |fs| == |gs|
    requires forall i :: 0 <= i < |fs| ==> fs[i].key == gs[i].key
    ensures Find(fs, k) == Find(gs, k)
  {
    if Find(fs, k).None? {
      assert Find(gs, k).None?;
    }
  }

  /** One step of a path to a node inside a value tree: a struct key or a list index.
      Paths stand for the pointers Go keeps to the leaves it rewrites. */
  datatype Step = Key(name: string) | Index(i: nat)

  /** The node a path leads to, if it still exists. */
  function At(v: Value, p: seq<Step>): Option<Value>
    decreases |p|
  {
    if p == [] then Some(v)
    else match p[0]
      case Key(k) =>
        if v.Struct? then
          match Find(v.fields, k)
          case Some(j) => At(v.fields[j].val, p[1..])
          case None => None
        else None
      case Index(i) =>
        if v.List? && i < |v.items| then At(v.items[i], p[1..]) else None
  }

  /** Overwrites the node a path leads to; a path that leads nowhere changes nothing,
      as writing through a pointer into a detached subtree changes no live request. */
  function Put(v: Value, p: seq<Step>, w: Value): Value
    decreases |p|
  {
    if p == [] then w
    else match p[0]
      case Key(k) =>
        if v.Struct? then
          match Find(v.fields, k)
          case Some(j) => Struct(v.fields[j := Field(k, Put(v.fields[j].val, p[1..], w))])
          case None => v
        else v
      case Index(i) =>
        if v.List? && i < |v.items| then List(v.items[i := Put(v.items[i], p[1..], w)]) else v
  }

  lemma {:induction false} PutAt(v: Value, p: seq<Step>, w: Value)
    requires At(v, p).Some?
    ensures At(Put(v, p, w), p) == Some(w)
    decreases |p|
  {
    if p != [] {
      match p[0]
      case Key(k) =>
        var j := Find(v.fields, k).value;
        var fs' := v.fields[j := Field(k, Put(v.fields[j].val, p[1..], w))];
        FindSameKeys(v.fields, fs', k);
        PutAt(v.fields[j].val, p[1..], w);
      case Index(i) =>
        PutAt(v.items[i], p[1..], w);
    }
  }

  lemma {:induction false} PutMissing(v: Value, p: seq<Step>, w: Value)
    requires At(v, p).None?
    ensures Put(v, p, w) == v
    decreases |p|
  {
    if p != [] {
      match p[0]
      case Key(k) =>
        if v.Struct? && Find(v.fields, k).Some? {
          var j := Find(v.fields, k).value;
          PutMissing(v.fields[j].val, p[1..], w);
          assert v.fields[j := Field(k, v.fields[j].val)] == v.fields;
        }
      case Index(i) =>
        if v.List? && i < |v.items| {
          PutMissing(v.items[i], p[1..], w);
          assert v.items[i := v.items[i]] == v.items;
        }
    }
  }

  predicate Apart(p: seq<Step>, q: seq<Step>) {
    !(p <= q) && !(q <= p)
  }

  /** Writing at one path leaves every node at a path apart from it untouched. */
  lemma {:induction false} PutFrame(v: Value, p: seq<Step>, q: seq<Step>, w: Value)
    requires Apart(p, q)
    ensures At(Put(v, p, w), q) == At(v, q)
    decreases |p|
  {
    assert p != [] && q != [];
    if At(v, p).None? {
      PutMissing(v, p, w);
    } else if p[0] == q[0] {
      assert Apart(p[1..], q[1..]) by {
        assert p == [p[0]] + p[1..] && q == [q[0]] + q[1..];
      }
      match p[0]
      case Key(k) =>
        var j := Find(v.fields, k).value;
        var fs' := v.fields[j := Field(k, Put(v.fields[j].val, p[1..], w))];
        FindSameKeys(v.fields, fs', k);
        PutFrame(v.fields[j].val, p[1..], q[1..], w);
      case Index(i) =>
        PutFrame(v.items[i], p[1..], q[1..], w);
    } else {
      match p[0]
      case Key(k) =>
        var j := Find(v.fields, k).value;
        var fs' := v.fields[j := Field(k, Put(v.fields[j].val, p[1..], w))];
        forall k' ensures Find(fs', k') == Find(v.fields, k') {
          FindSameKeys(v.fields, fs', k');
        }
        if q[0].Key? {
          var k2 := q[0].name;
          if Find(v.fields, k2).Some? {
            var j2 := Find(v.fields, k2).value;
            assert j2 != j;
          }
        }
      case Index(i) =>
    }
  }

  /** A scalar has no nodes below it. */
  lemma ScalarHasNoChildren(x: Value, s: seq<Step>)
    requires IsScalar(x) && s != []
    ensures At(x, s) == None
  {
  }

  /** Nothing hangs below a path that leads to a scalar. */
  lemma {:induction false} BelowScalar(v: Value, p: seq<Step>, q: seq<Step>)
    requires At(v, p).Some? && IsScalar(At(v, p).value)
    requires p <= q && p != q
    ensures At(v, q) == None
    decreases |p|
  {
    if p == [] {
      ScalarHasNoChildren(v, q);
    } else {
      assert q[0] == p[0] && p[1..] <= q[1..];
      match p[0]
      case Key(k) =>
        BelowScalar(v.fields[Find(v.fields, k).value].val, p[1..], q[1..]);
      case Index(i) =>
        BelowScalar(v.items[i], p[1..], q[1..]);
    }
  }

  /** Replacing a scalar by a scalar leaves every other scalar where it was. */
  lemma PutScalarFrame(v: Value, p: seq<Step>, q: seq<Step>, w: Value)
    requires At(v, p).Some? && IsScalar(At(v, p).value) && IsScalar(w)
    requires At(v, q).Some? && IsScalar(At(v, q).value)
    requires p != q
    ensures At(Put(v, p, w), q) == At(v, q)
  {
    if q <= p {
      BelowScalar(v, q, p);
    } else if p <= q {
      BelowScalar(v, p, q);
    } else {
      PutFrame(v, p, q, w);
    }
  }

  /** Replacing a scalar by a scalar keeps the scalars of the tree at the same places. */
  lemma {:induction false} PutScalarShape(v: Value, p: seq<Step>, q: seq<Step>, w: Value)
    requires At(v, p).Some? && IsScalar(At(v, p).value) && IsScalar(w)
    ensures At(Put(v, p, w), q).Some? <==> At(v, q).Some?
    ensures At(Put(v, p, w), q).Some? ==> (IsScalar(At(Put(v, p, w), q).value) <==> IsScalar(At(v, q).value))
    ensures At(Put(v, p, w), q).Some? ==> (At(Put(v, p, w), q).value.List? <==> At(v, q).value.List?)
    decreases |p|
  {
    if p == [] {
      if q != [] {
        ScalarHasNoChildren(v, q);
        ScalarHasNoChildren(w, q);
      }
    } else if q != [] {
      if p[0] != q[0] {
        assert Apart(p, q);
        PutFrame(v, p, q, w);
      } else {
        match p[0]
        case Key(k) =>
          var j := Find(v.fields, k).value;
          var fs' := v.fields[j := Field(k, Put(v.fields[j].val, p[1..], w))];
          FindSameKeys(v.fields, fs', k);
          PutScalarShape(v.fields[j].val, p[1..], q[1..], w);
        case Index(i) =>
          PutScalarShape(v.items[i], p[1..], q[1..], w);
      }
    }
  }

  /** A struct without the field named `k`; the other fields keep their order. */
  function RemoveKey(fs: seq<Field>, k: string): (r: seq<Field>)
    ensures |r| <= |fs|
    ensures forall i :: 0 <= i < |r| ==> r[i] in fs && r[i].key != k
    ensures forall i :: 0 <= i < |fs| && fs[i].key != k ==> fs[i] in r
  {
    if fs == [] then []
    else if fs[0].key == k then RemoveKey(fs[1..], k)
    else [fs[0]] + RemoveKey(fs[1..], k)
  }
}
