/** The splitter that turns a dependency key such as `data{items[{id}]}` into the key
    segments of a JSON lookup. The fuzzer's mutator and its token fetcher share it. */
module KeyPath {

  /** The segments emitted so far and the segment being read. */
  datatype SplitState = SplitState(keys: seq<string>, key: string)

  const Start := SplitState([], "")

  predicate IsBracket(c: char) {
    c == '{' || c == '[' || c == ']' || c == '}'
  }

  predicate Plain(s: string) {
    forall i :: 0 <= i < |s| ==> !IsBracket(s[i])
  }

  /** One character: an opening bracket always emits the pending segment, even an empty
      one, and `[` starts the next segment as "0"; a closing bracket emits only a
      non-empty segment; any other character extends the pending segment. */
  function Next(st: SplitState, c: char): SplitState {
    if c == '{' then SplitState(st.keys + [st.key], "")
    else if c == '[' then SplitState(st.keys + [st.key], "0")
    else if c == ']' || c == '}' then
      if |st.key| > 0 then SplitState(st.keys + [st.key], "") else st
    else SplitState(st.keys, st.key + [c])
  }

  function Run(st: SplitState, s: string): SplitState
    decreases |s|
  {
    if s == [] then st else Run(Next(st, s[0]), s[1..])
  }

  /** The segments of a key: whatever follows the last bracket is never emitted. */
  function Segments(s: string): seq<string> {
    Run(Start, s).keys
  }

  lemma {:induction false} RunConcat(st: SplitState, s: string, t: string)
    ensures Run(st, s + t) == Run(Run(st, s), t)
    decreases |s|
  {
    if s != [] {
      assert (s + t)[0] == s[0] && (s + t)[1..] == s[1..] + t;
      RunConcat(Next(st, s[0]), s[1..], t);
    } else {
      assert s + t == t;
    }
  }

  /** Text without brackets only extends the pending segment. */
  lemma {:induction false} RunPlain(st: SplitState, t: string)
    requires Plain(t)
    ensures Run(st, t) == SplitState(st.keys, st.key + t)
    decreases |t|
  {
    if t != [] {
      RunPlain(Next(st, t[0]), t[1..]);
      assert st.key + [t[0]] + t[1..] == st.key + t;
    } else {
      assert st.key + t == st.key;
    }
  }

  /** Characters after the last bracket are never emitted. */
  lemma TrailingIgnored(s: string, t: string)
    requires Plain(t)
    ensures Segments(s + t) == Segments(s)
  {
    RunConcat(Start, s, t);
    RunPlain(Run(Start, s), t);
  }

  /** Appending text never takes back a segment already emitted. */
  lemma {:induction false} SegmentsGrow(st: SplitState, t: string)
    ensures st.keys <= Run(st, t).keys
    decreases |t|
  {
    if t != [] {
      SegmentsGrow(Next(st, t[0]), t[1..]);
    }
  }

  /** An opening brace emits exactly one segment, the pending one, even when it is empty. */
  lemma OpenAlwaysEmits(s: string)
    ensures Segments(s + "{") == Segments(s) + [Run(Start, s).key]
    ensures Run(Start, s + "{").key == ""
  {
    RunConcat(Start, s, "{");
  }

  /** A closing bracket right after another emits nothing. */
  lemma CloseTwiceEmitsOnce(s: string, d: char, c: char)
    requires d == ']' || d == '}'
    requires c == ']' || c == '}'
    ensures Segments(s + [d] + [c]) == Segments(s + [d])
  {
    RunConcat(Start, s + [d], [c]);
    RunConcat(Start, s, [d]);
  }

  /** The two ways a key descends: into the field `name`, or into the field `name`
      and then its first array element. */
  datatype Hop = Into(name: string) | IntoFirst(name: string)

  predicate Named(hops: seq<Hop>, last: string) {
    Plain(last) && |last| > 0 &&
    forall i :: 0 <= i < |hops| ==> Plain(hops[i].name)
  }

  /** `a{b{c}}` for a, b, c; `a[{c}]` for the first element of a, then c. */
  function Render(hops: seq<Hop>, last: string): string
    decreases |hops|
  {
    if hops == [] then last
    else match hops[0]
      case Into(n) => n + "{" + Render(hops[1..], last) + "}"
      case IntoFirst(n) => n + "[{" + Render(hops[1..], last) + "}]"
  }

  function Expand(hops: seq<Hop>): seq<string>
    decreases |hops|
  {
    if hops == [] then []
    else match hops[0]
      case Into(n) => [n] + Expand(hops[1..])
      case IntoFirst(n) => [n, "0"] + Expand(hops[1..])
  }

  lemma OpenField(ks: seq<string>, n: string)
    requires Plain(n)
    ensures Run(SplitState(ks, ""), n + "{") == SplitState(ks + [n], "")
  {
    RunConcat(SplitState(ks, ""), n, "{");
    RunPlain(SplitState(ks, ""), n);
    assert "" + n == n;
  }

  lemma OpenFirst(ks: seq<string>, n: string)
    requires Plain(n)
    ensures Run(SplitState(ks, ""), n + "[{") == SplitState(ks + [n, "0"], "")
  {
    RunConcat(SplitState(ks, ""), n, "[{");
    RunPlain(SplitState(ks, ""), n);
    assert "" + n == n;
    assert Run(SplitState(ks, n), "[{") == Run(SplitState(ks + [n], "0"), "{");
  }

  lemma CloseNothing(st: SplitState, t: string)
    requires st.key == "" && forall i :: 0 <= i < |t| ==> t[i] == ']' || t[i] == '}'
    ensures Run(st, t) == st
    decreases |t|
  {
    if t != [] {
      CloseNothing(Next(st, t[0]), t[1..]);
    }
  }

  lemma Compose(st: SplitState, a: string, b: string, c: string, st1: SplitState, st2: SplitState)
    requires Run(st, a) == st1 && Run(st1, b) == st2 && Run(st2, c) == st2
    ensures Run(st, a + b + c) == st2
  {
    RunConcat(st, a + b, c);
    RunConcat(st, a, b);
  }

  lemma CloseLast(ks: seq<string>, last: string)
    requires Plain(last) && |last| > 0
    ensures Run(SplitState(ks, ""), last + "}") == SplitState(ks + [last], "")
  {
    RunConcat(SplitState(ks, ""), last, "}");
    RunPlain(SplitState(ks, ""), last);
    assert "" + last == last;
  }

  /** One level of nesting, given the text inside it. */
  lemma Wrap(ks: seq<string>, open: string, inner: string, close: string, ks': seq<string>, rest: seq<string>)
    requires Run(SplitState(ks, ""), open) == SplitState(ks', "")
    requires Run(SplitState(ks', ""), inner + "}") == SplitState(ks' + rest, "")
    requires forall i :: 0 <= i < |close| ==> close[i] == ']' || close[i] == '}'
    ensures Run(SplitState(ks, ""), open + (inner + "}") + close) == SplitState(ks' + rest, "")
  {
    CloseNothing(SplitState(ks' + rest, ""), close);
    Compose(SplitState(ks, ""), open, inner + "}", close, SplitState(ks', ""), SplitState(ks' + rest, ""));
  }

  lemma Regroup(a: seq<string>, b: seq<string>, c: seq<string>, d: seq<string>)
    ensures a + b + (c + d) == a + (b + c) + d
  {
  }

  lemma {:induction false} RunRender(ks: seq<string>, hops: seq<Hop>, last: string)
    requires Named(hops, last)
    ensures Run(SplitState(ks, ""), Render(hops, last) + "}") == SplitState(ks + Expand(hops) + [last], "")
    decreases |hops|
  {
    if hops == [] {
      CloseLast(ks, last);
    } else {
      assert Named(hops[1..], last);
      var n := hops[0].name;
      var inner := Render(hops[1..], last);
      var rest := Expand(hops[1..]) + [last];
      if hops[0].Into? {
        OpenField(ks, n);
        RunRender(ks + [n], hops[1..], last);
        assert ks + [n] + Expand(hops[1..]) + [last] == ks + [n] + rest;
        Wrap(ks, n + "{", inner, "}", ks + [n], rest);
        assert Render(hops, last) + "}" == (n + "{") + (inner + "}") + "}";
        assert Expand(hops) == [n] + Expand(hops[1..]);
        Regroup(ks, [n], Expand(hops[1..]), [last]);
      } else {
        OpenFirst(ks, n);
        RunRender(ks + [n, "0"], hops[1..], last);
        assert ks + [n, "0"] + Expand(hops[1..]) + [last] == ks + [n, "0"] + rest;
        Wrap(ks, n + "[{", inner, "]}", ks + [n, "0"], rest);
        assert Render(hops, last) + "}" == (n + "[{") + (inner + "}") + "]}";
        assert Expand(hops) == [n, "0"] + Expand(hops[1..]);
        Regroup(ks, [n, "0"], Expand(hops[1..]), [last]);
      }
    }
  }

  /** A key written in nested form splits into exactly the fields and first-element
      steps it names. */
  lemma SplitRender(hops: seq<Hop>, last: string)
    requires Named(hops, last) && hops != []
    ensures Segments(Render(hops, last)) == Expand(hops) + [last]
  {
    var n := hops[0].name;
    var inner := Render(hops[1..], last);
    assert Named(hops[1..], last);
    var open, close, ks' := if hops[0].Into? then n + "{" else n + "[{",
                           if hops[0].Into? then "" else "]",
                           if hops[0].Into? then [n] else [n, "0"];
    if hops[0].Into? {
      OpenField([], n);
      assert Render(hops, last) == open + (inner + "}") + close;
    } else {
      OpenFirst([], n);
      assert Render(hops, last) == open + (inner + "}") + close;
    }
    assert [] + [n] == [n] && [] + [n, "0"] == [n, "0"];
    RunRender(ks', hops[1..], last);
    var done := SplitState(ks' + Expand(hops[1..]) + [last], "");
    CloseNothing(done, close);
    Compose(Start, open, inner + "}", close, SplitState(ks', ""), done);
    assert ks' + Expand(hops[1..]) + [last] == Expand(hops) + [last];
  }

  /** The splitter as the fuzzer runs it, one character at a time. */
  method Split(s: string) returns (keys: seq<string>)
    ensures keys == Segments(s)
  {
    keys := [];
    var key := "";
    var i := 0;
    while i < |s|
      invariant 0 <= i <= |s|
      invariant SplitState(keys, key) == Run(Start, s[..i])
    {
      var c := s[i];
      RunConcat(Start, s[..i], [c]);
      assert s[..i + 1] == s[..i] + [c];
      if c == '{' {
        keys := keys + [key];
        key := "";
      } else if c == '[' {
        keys := keys + [key];
        key := "0";
      } else if c == ']' || c == '}' {
        if |key| > 0 {
          keys := keys + [key];
          key := "";
        }
      } else {
        key := key + [c];
      }
      i := i + 1;
    }
    assert s[..i] == s;
  }
}
