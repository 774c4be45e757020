/** The fuzzer itself: the checks `New` makes before fuzzing (server, directory, strict
    mode configuration), the Dependency.yml template, the text form of a coverage
    vector, and one iteration of the `Fuzz` loop: take a seed from the corpus queue,
    mutate it, send every node, archive crashes, score the responses and keep the seed
    when the coverage went up. */
module Fuzzer {
  import opened Values
  import opened Base
  import opened Api
  import Text
  import Grammar
  import Mutator
  import Analyzer
  import Persistent
  import Auth
  import Sender

  // ---------------------------------------------------------------- the server

  /** A server URL the fuzzer can use: not "/", and not ending in ".local" or "}". */
  predicate Usable(url: string) {
    url != "/" && !Text.HasSuffix(url, ".local") && !Text.HasSuffix(url, "}")
  }

  /** The usable servers, in the document's order. */
  function Servers(urls: seq<string>): (r: seq<string>)
    ensures forall i :: 0 <= i < |r| ==> Usable(r[i])
    decreases |urls|
  {
    if urls == [] then []
    else Servers(urls[..|urls| - 1]) + (if Usable(urls[|urls| - 1]) then [urls[|urls| - 1]] else [])
  }

  function ServerSpec(urls: seq<string>): Result<string> {
    if Servers(urls) == [] then Failure("invalid server url") else Success(Servers(urls)[0])
  }

  /** The first usable URL is chosen; with none, the error. */
  lemma {:induction false} FirstUsableServer(urls: seq<string>, i: nat)
    requires i < |urls| && Usable(urls[i])
    requires forall j :: 0 <= j < i ==> !Usable(urls[j])
    ensures ServerSpec(urls) == Success(urls[i])
    decreases |urls|
  {
    var n := |urls| - 1;
    assert urls[..n][..n] == urls[..n];
    if i < n {
      FirstUsableServer(urls[..n], i);
    } else {
      NoUsableServer(urls[..n]);
    }
  }

  lemma {:induction false} NoUsableServer(urls: seq<string>)
    requires forall j :: 0 <= j < |urls| ==> !Usable(urls[j])
    ensures ServerSpec(urls) == Failure("invalid server url")
    decreases |urls|
  {
    if urls != [] {
      NoUsableServer(urls[..|urls| - 1]);
    }
  }

  /** The server loop of `New`: collects the usable URLs and takes the first. */
  method ChooseServer(urls: seq<string>) returns (r: Result<string>)
    ensures r == ServerSpec(urls)
  {
    var servers: seq<string> := [];
    var k := 0;
    while k < |urls|
      invariant 0 <= k <= |urls|
      invariant servers == Servers(urls[..k])
    {
      assert urls[..k + 1][..k] == urls[..k];
      var url := urls[k];
      if url != "/" && !Text.HasSuffix(url, ".local") && !Text.HasSuffix(url, "}") {
        servers := servers + [url];
      }
      k := k + 1;
    }
    assert urls[..k] == urls;
    if servers == [] {
      return Failure("invalid server url");
    }
    r := Success(servers[0]);
  }

  // ---------------------------------------------------------------- the directory

  /** The directory check as written: "/" is appended unless the text without its LAST
      character is "/"; an empty path makes the slice panic. */
  function DirAsWritten(dirPath: string): Result<string> {
    if dirPath == [] then Failure("slice bounds out of range")
    else if dirPath[..|dirPath| - 1] != "/" then Success(dirPath + "/")
    else Success(dirPath)
  }

  /** "/a" is kept without its trailing slash, so the title is glued to "a". */
  lemma DirAsWrittenDropsSlash()
    ensures DirAsWritten("/a") == Success("/a")
    ensures !Text.HasSuffix("/a", "/")
  {
    assert "/a"[..1] == "/";
  }

  /** As written, the check appends "/" to every directory but "/" followed by one
      character, so it agrees with the intended check exactly on the directories that do
      not end in "/". */
  lemma DirAsWrittenAppends(dirPath: string)
    requires dirPath != [] && !(|dirPath| == 2 && dirPath[0] == '/')
    ensures DirAsWritten(dirPath) == Success(dirPath + "/")
    ensures dirPath[|dirPath| - 1] != '/' <==> DirAsWritten(dirPath) == NormalizeDir(dirPath)
  {
  }

  /** The directory check as intended: "/" is appended unless the path ends in one. */
  function NormalizeDir(dirPath: string): Result<string> {
    if dirPath == [] then Failure("slice bounds out of range")
    else if dirPath[|dirPath| - 1] != '/' then Success(dirPath + "/")
    else Success(dirPath)
  }

  /** A normalised directory ends in exactly the one slash it needs, and normalising it
      again changes nothing. */
  lemma NormalizeDirEndsInSlash(dirPath: string)
    requires dirPath != []
    ensures NormalizeDir(dirPath).Success?
    ensures Text.HasSuffix(NormalizeDir(dirPath).value, "/")
    ensures NormalizeDir(dirPath).value == dirPath || NormalizeDir(dirPath).value == dirPath + "/"
    ensures Text.HasSuffix(dirPath, "/") ==> NormalizeDir(dirPath).value == dirPath
    ensures NormalizeDir(NormalizeDir(dirPath).value) == NormalizeDir(dirPath)
  {
    var d := NormalizeDir(dirPath).value;
    assert d[|d| - 1..] == "/";
  }

  // ---------------------------------------------------------------- paths and methods

  /** The number of operations of the listed paths. */
  function OpCount(doc: Doc, ps: seq<string>): nat {
    if ps == [] then 0 else (if ps[0] in doc then |doc[ps[0]].ops| else 0) + OpCount(doc, ps[1..])
  }

  lemma {:induction false} OpCountSnoc(doc: Doc, ps: seq<string>, p: string)
    ensures OpCount(doc, ps + [p]) == OpCount(doc, ps) + OpCount(doc, [p])
    decreases |ps|
  {
    if ps != [] {
      assert (ps + [p])[1..] == ps[1..] + [p];
      OpCountSnoc(doc, ps[1..], p);
    } else {
      assert ps + [p] == [p];
    }
  }

  lemma {:induction false} OpCountInsert(doc: Doc, p: string, ps: seq<string>)
    ensures OpCount(doc, Text.Insert(p, ps)) == OpCount(doc, [p] + ps)
    decreases |ps|
  {
    if ps != [] && !Text.StrLeq(p, ps[0]) {
      OpCountInsert(doc, p, ps[1..]);
      assert ([p] + ps)[1..] == ps;
      assert ([p] + ps[1..])[1..] == ps[1..];
    }
  }

  /** Sorting the paths does not change the operation count. */
  lemma {:induction false} OpCountSorted(doc: Doc, ps: seq<string>)
    ensures OpCount(doc, Text.SortStrings(ps)) == OpCount(doc, ps)
    decreases |ps|
  {
    if ps != [] {
      OpCountSorted(doc, ps[1..]);
      OpCountInsert(doc, ps[0], Text.SortStrings(ps[1..]));
      assert ([ps[0]] + Text.SortStrings(ps[1..]))[1..] == Text.SortStrings(ps[1..]);
    }
  }

  /** The document's paths, each once, in byte order. */
  ghost predicate SortedPathsOf(ps: seq<string>, doc: Doc) {
    Text.Sorted(ps) && |ps| == |doc| && forall p :: p in ps <==> p in doc
  }

  /** The path loop of `New`: counts the operations and lists the paths in the order
      Go's map iteration visits them, then sorts the list. */
  method CountPaths(doc: Doc) returns (methods: nat, sorted: seq<string>)
    ensures SortedPathsOf(sorted, doc)
    ensures methods == OpCount(doc, sorted)
  {
    var walk: seq<string> := [];
    var rest := doc.Keys;
    methods := 0;
    while rest != {}
      invariant |walk| + |rest| == |doc.Keys|
      invariant forall p :: p in doc <==> p in walk || p in rest
      invariant forall p :: p in walk ==> p !in rest
      invariant methods == OpCount(doc, walk)
      decreases |rest|
    {
      var p :| p in rest;
      OpCountSnoc(doc, walk, p);
      methods := methods + |doc[p].ops|;
      walk := walk + [p];
      rest := rest - {p};
    }
    sorted := Text.SortStrings(walk);
    OpCountSorted(doc, walk);
    assert forall p :: p in sorted <==> p in multiset(walk);
  }

  // ---------------------------------------------------------------- strict mode

  /** Token.yml and Dependency.yml as read (None when the file is missing), and whether
      Info.yml exists. */
  datatype Files = Files(token: Option<Auth.Token>, dependency: Option<Dependency>, info: bool)

  /** Every dependency item names the path its value comes from. */
  predicate SourcesReady(d: Dependency) {
    forall p, i :: p in d.paths && 0 <= i < |d.paths[p]| ==> d.paths[p][i].sourcePath != ""
  }

  /** The strict-mode configuration: a missing file ends the run after its template is
      written; then the dependency file must list as many paths as the document, the
      token must have a login URL or a key, and every item must name its source path. */
  function StrictSetup(doc: Doc, files: Files): Result<(Auth.Token, Dependency)> {
    if files.token.None? || files.dependency.None? || !files.info then Failure("Init success")
    else
      var t := files.token.value;
      var d := files.dependency.value;
      if |doc| != |d.paths| then Failure("Invalid dependencies.")
      else if t.url == "" && t.bearer == "" then Failure("Token.yml is not ready yet.")
      else if !SourcesReady(d) then Failure("Dependency.yml is not ready yet.")
      else Success((t, d))
  }

  /** The flows a POST path's template lists: GET, GET, PATCH, DELETE, with no path. */
  function PostFlows(): seq<Flow> {
    [Flow("GET", ""), Flow("GET", ""), Flow("PATCH", ""), Flow("DELETE", "")]
  }

  /** The Dependency.yml template: one empty item per path, and the flow list for each
      path that has a POST. */
  function DefaultDependency(doc: Doc, sorted: seq<string>): Dependency {
    Dependency(|sorted|,
      map p | p in sorted :: [Item("", "", "")],
      map p | p in sorted && p in doc && "POST" in doc[p].ops :: PostFlows())
  }

  /** initializeDependencyYAML's loop over the sorted paths. */
  method InitDependency(doc: Doc, sorted: seq<string>) returns (d: Dependency)
    ensures d == DefaultDependency(doc, sorted)
  {
    var paths: map<string, seq<Item>> := map[];
    var posts: map<string, seq<Flow>> := map[];
    var i := 0;
    while i < |sorted|
      invariant 0 <= i <= |sorted|
      invariant paths == map p | p in sorted[..i] :: [Item("", "", "")]
      invariant posts == map p | p in sorted[..i] && p in doc && "POST" in doc[p].ops :: PostFlows()
    {
      assert sorted[..i + 1] == sorted[..i] + [sorted[i]];
      var path := sorted[i];
      paths := paths[path := [Item("", "", "")]];
      if path in doc && "POST" in doc[path].ops {
        posts := posts[path := PostFlows()];
      }
      i := i + 1;
    }
    assert sorted[..i] == sorted;
    d := Dependency(|sorted|, paths, posts);
  }

  /** The template lists every path with one empty item, so a document with paths is
      refused in strict mode until the items are filled in. */
  lemma TemplateNotReady(doc: Doc, sorted: seq<string>, t: Auth.Token)
    requires SortedPathsOf(sorted, doc) && |doc| > 0
    requires t.url != "" || t.bearer != ""
    ensures StrictSetup(doc, Files(Some(t), Some(DefaultDependency(doc, sorted)), true))
      == Failure("Dependency.yml is not ready yet.")
  {
    var d := DefaultDependency(doc, sorted);
    assert d.paths.Keys == doc.Keys;
    assert |d.paths| == |d.paths.Keys|;
    var p :| p in doc;
    assert d.paths[p][0].sourcePath == "";
  }

  /** The template's count is the number of paths, and exactly the POST paths get flows. */
  lemma TemplateShape(doc: Doc, sorted: seq<string>)
    requires SortedPathsOf(sorted, doc)
    ensures DefaultDependency(doc, sorted).count == |doc|
    ensures forall p :: p in DefaultDependency(doc, sorted).posts <==> p in doc && "POST" in doc[p].ops
    ensures forall p :: p in DefaultDependency(doc, sorted).paths <==> p in doc
  {
  }

  // ---------------------------------------------------------------- New

  /** What `New` settles before fuzzing. */
  datatype Setup = Setup(server: string, dir: string, methods: nat, sortedPaths: seq<string>,
                         token: Auth.Token, dependency: Dependency)

  const NoToken := Auth.Token("", "", "", "", "", false, "")

  /** New, without the document loader and the file system: the server, the operation
      count and sorted paths, the working directory, and in strict mode the token and
      dependency files. */
  method New(doc: Doc, urls: seq<string>, dirPath: string, title: string, strict: bool, files: Files)
    returns (r: Result<Setup>)
    ensures r.Failure? <==>
      ServerSpec(urls).Failure? || NormalizeDir(dirPath).Failure? || (strict && StrictSetup(doc, files).Failure?)
    ensures ServerSpec(urls).Failure? ==> r == Failure(ServerSpec(urls).error)
    ensures r.Success? ==>
      var s := r.value;
      ServerSpec(urls) == Success(s.server) &&
      SortedPathsOf(s.sortedPaths, doc) && s.methods == OpCount(doc, s.sortedPaths) &&
      s.dir == NormalizeDir(dirPath).value + title + "/" &&
      (strict ==> StrictSetup(doc, files) == Success((s.token, s.dependency))) &&
      (!strict ==> s.token == NoToken && s.dependency == Dependency(0, map[], map[]))
  {
    var server := ChooseServer(urls);
    if server.Failure? {
      return Failure(server.error);
    }
    var methods, sorted := CountPaths(doc);
    var dir := dirPath;
    if dir == [] {
      return Failure("slice bounds out of range");
    }
    if dir[|dir| - 1] != '/' {
      dir := dir + "/";
    }
    var token := NoToken;
    var dependency := Dependency(0, map[], map[]);
    if strict {
      var setup := StrictSetup(doc, files);
      if setup.Failure? {
        return Failure(setup.error);
      }
      token, dependency := setup.value.0, setup.value.1;
    }
    r := Success(Setup(server.value, dir + title + "/", methods, sorted, token, dependency));
  }

  // ---------------------------------------------------------------- Coverage.String

  /** One level of the text: the level in decimal and a space. */
  function Cell(n: int): string {
    Text.IntToString(n) + " "
  }

  /** Each level in decimal followed by one space. */
  function LevelsText(levels: seq<int>): string {
    if levels == [] then "" else Cell(levels[0]) + LevelsText(levels[1..])
  }

  lemma {:induction false} LevelsTextSnoc(levels: seq<int>, n: int)
    ensures LevelsText(levels + [n]) == LevelsText(levels) + Cell(n)
    decreases |levels|
  {
    if levels != [] {
      var rest := levels[1..];
      assert (levels + [n])[1..] == rest + [n];
      assert (levels + [n])[0] == levels[0];
      LevelsTextSnoc(rest, n);
      calc {
        LevelsText(levels + [n]);
        Cell(levels[0]) + LevelsText(rest + [n]);
        Cell(levels[0]) + (LevelsText(rest) + Cell(n));
        (Cell(levels[0]) + LevelsText(rest)) + Cell(n);
      }
    } else {
      assert levels + [n] == [n];
      assert [n][1..] == [];
    }
  }

  /** Coverage.String: appends one level at a time. */
  method CoverageString(levels: seq<int>) returns (r: string)
    ensures r == LevelsText(levels)
  {
    r := "";
    var i := 0;
    while i < |levels|
      invariant 0 <= i <= |levels|
      invariant r == LevelsText(levels[..i])
    {
      assert levels[..i + 1] == levels[..i] + [levels[i]];
      LevelsTextSnoc(levels[..i], levels[i]);
      r := r + Cell(levels[i]);
      i := i + 1;
    }
    assert levels[..i] == levels;
  }

  /** The text up to the first space. */
  function Word(s: string): (w: string)
    ensures |w| <= |s| && w == s[..|w|] && ' ' !in w
    ensures |w| < |s| ==> s[|w|] == ' '
  {
    if s == [] || s[0] == ' ' then [] else [s[0]] + Word(s[1..])
  }

  /** The space-separated words of a text; a trailing space ends the last word. */
  function Words(s: string): seq<string>
    decreases |s|
  {
    if s == [] then []
    else
      var w := Word(s);
      if |w| == |s| then [w] else [w] + Words(s[|w| + 1..])
  }

  lemma {:induction false} WordOf(w: string, rest: string)
    requires ' ' !in w
    ensures Word(w + " " + rest) == w
    decreases |w|
  {
    if w != [] {
      assert w[0] in w;
      assert (w + " " + rest)[1..] == w[1..] + " " + rest;
      assert forall c :: c in w[1..] ==> c in w;
      WordOf(w[1..], rest);
    }
  }

  lemma WordsCons(w: string, rest: string)
    requires ' ' !in w
    ensures Words(w + " " + rest) == [w] + Words(rest)
  {
    WordOf(w, rest);
    assert (w + " " + rest)[|w| + 1..] == rest;
  }

  /** Reads a coverage text back, one level per word. */
  function ParseLevels(s: string): seq<int> {
    var ws := Words(s);
    seq(|ws|, i requires 0 <= i < |ws| => Text.Atoi(ws[i]).value)
  }

  /** A level in decimal holds no space. */
  lemma NoSpaceInLevel(n: int)
    ensures ' ' !in Text.IntToString(n)
  {
    var w := Text.IntToString(n);
    Text.IntToStringChars(n);
    forall k | 0 <= k < |w| ensures w[k] != ' ' {
      assert Text.IsDigit(w[k]) || w[k] == '-';
    }
  }

  /** The words of a coverage text are its levels in decimal. */
  function LevelWords(levels: seq<int>): (ws: seq<string>)
    ensures |ws| == |levels|
  {
    seq(|levels|, i requires 0 <= i < |levels| => Text.IntToString(levels[i]))
  }

  lemma LevelWordsCons(levels: seq<int>)
    requires levels != []
    ensures LevelWords(levels) == [Text.IntToString(levels[0])] + LevelWords(levels[1..])
  {
    var w := Text.IntToString(levels[0]);
    forall i | 0 <= i < |levels| ensures LevelWords(levels)[i] == ([w] + LevelWords(levels[1..]))[i] {
      if i > 0 {
        assert levels[1..][i - 1] == levels[i];
      }
    }
  }

  lemma {:induction false} LevelsWords(levels: seq<int>)
    ensures Words(LevelsText(levels)) == LevelWords(levels)
    decreases |levels|
  {
    if levels != [] {
      var w := Text.IntToString(levels[0]);
      NoSpaceInLevel(levels[0]);
      WordsCons(w, LevelsText(levels[1..]));
      LevelsWords(levels[1..]);
      LevelWordsCons(levels);
    }
  }

  /** The text of a coverage vector reads back as the vector (levels are int64). */
  lemma LevelsRoundTrip(levels: seq<int>)
    requires forall i :: 0 <= i < |levels| ==> Text.MinInt64 <= levels[i] <= Text.MaxInt64
    ensures ParseLevels(LevelsText(levels)) == levels
  {
    LevelsWords(levels);
    forall i | 0 <= i < |levels|
      ensures Text.Atoi(Text.IntToString(levels[i])).value == levels[i]
    {
      Text.AtoiIntToString(levels[i]);
    }
  }

  // ---------------------------------------------------------------- crashes

  /** A 5xx answer that is not the sender's own 599 sentinel. */
  predicate IsCrash(code: int) {
    code >= 500 && code != 599
  }

  /** The request types of a node, concatenated. */
  function TypesOf(reqs: seq<Request>): string {
    if reqs == [] then "" else TypesOf(reqs[..|reqs| - 1]) + reqs[|reqs| - 1].typ
  }

  /** The name a crash is filed under: the path, then the request types. */
  function CrashKey(node: Node): string {
    node.path + TypesOf(node.requests)
  }

  const DescTypes: seq<string> := ["code", "timestamp", "node", "request", "response"]

  /** The five descriptions of a crash, in the order of DescTypes. */
  function Descriptions(info: Analyzer.Info, stamp: string, x: Externals): (ds: seq<seq<Text.byte>>)
    ensures |ds| == |DescTypes|
  {
    [Text.Bytes(Text.IntToString(info.code)), Text.Bytes(stamp), x.nodeBytes(info.node),
     Text.Bytes(x.nodeText(info.node)), Text.Bytes(info.body)]
  }

  /** The file names of the five descriptions of the blob with digest `sig`. */
  function DescNames(sig: Persistent.Sig): (names: seq<string>)
    ensures |names| == |DescTypes|
  {
    seq(|DescTypes|, t requires 0 <= t < |DescTypes| => Persistent.DescName(sig, DescTypes[t]))
  }

  /** The directory after the first `n` of the named files were written once each. */
  function Archived(files: map<string, seq<Text.byte>>, names: seq<string>, ds: seq<seq<Text.byte>>, n: nat)
    : map<string, seq<Text.byte>>
    requires n <= |names| == |ds|
  {
    if n == 0 then files
    else Persistent.WriteOnce(Archived(files, names, ds, n - 1), names[n - 1], ds[n - 1])
  }

  lemma DescNamesDiffer(sig: Persistent.Sig, a: string, b: string)
    requires a != b
    ensures Persistent.DescName(sig, a) != Persistent.DescName(sig, b)
  {
    var h := Persistent.Hex(sig);
    assert Persistent.DescName(sig, a)[|h| + 1..] == a;
    assert Persistent.DescName(sig, b)[|h| + 1..] == b;
  }

  /** The five description files of a crash have five different names. */
  lemma DescNamesDistinct(sig: Persistent.Sig)
    ensures forall i, j :: 0 <= i < j < |DescTypes| ==> DescNames(sig)[i] != DescNames(sig)[j]
  {
    forall i, j | 0 <= i < j < |DescTypes| ensures DescNames(sig)[i] != DescNames(sig)[j] {
      DescNamesDiffer(sig, DescTypes[i], DescTypes[j]);
    }
  }

  /** Writing the named files adds exactly those names, and a file already on disk is
      kept as it was. */
  lemma {:induction false} ArchivedKeeps(files: map<string, seq<Text.byte>>, names: seq<string>, ds: seq<seq<Text.byte>>, n: nat)
    requires n <= |names| == |ds|
    ensures Archived(files, names, ds, n).Keys == files.Keys + set t | 0 <= t < n :: names[t]
    ensures forall f :: f in files ==> Archived(files, names, ds, n)[f] == files[f]
    decreases n
  {
    if n > 0 {
      ArchivedKeeps(files, names, ds, n - 1);
      var prev := Archived(files, names, ds, n - 1);
      assert (set t | 0 <= t < n :: names[t]) == (set t | 0 <= t < n - 1 :: names[t]) + {names[n - 1]};
    }
  }

  /** With distinct names, each name that was not on disk holds its own description. */
  lemma ArchivedWrites(files: map<string, seq<Text.byte>>, names: seq<string>, ds: seq<seq<Text.byte>>, n: nat)
    requires n <= |names| == |ds|
    requires forall i, j :: 0 <= i < j < |names| ==> names[i] != names[j]
    ensures forall t :: 0 <= t < n && names[t] !in files ==>
      names[t] in Archived(files, names, ds, n) && Archived(files, names, ds, n)[names[t]] == ds[t]
  {
    forall t | 0 <= t < n && names[t] !in files
      ensures names[t] in Archived(files, names, ds, n) && Archived(files, names, ds, n)[names[t]] == ds[t]
    {
      ArchivedWritesAt(files, names, ds, n, t);
    }
  }

  lemma {:induction false} ArchivedWritesAt(files: map<string, seq<Text.byte>>, names: seq<string>,
                                            ds: seq<seq<Text.byte>>, n: nat, t: nat)
    requires t < n <= |names| == |ds| && names[t] !in files
    requires forall i, j :: 0 <= i < j < |names| ==> names[i] != names[j]
    ensures names[t] in Archived(files, names, ds, n) && Archived(files, names, ds, n)[names[t]] == ds[t]
    decreases n
  {
    if t < n - 1 {
      ArchivedWritesAt(files, names, ds, n - 1, t);
      assert names[t] != names[n - 1];
    } else {
      ArchivedMisses(files, names, ds, n - 1, names[n - 1]);
    }
  }

  /** A name neither on disk nor among the first `n` is still absent after them. */
  lemma {:induction false} ArchivedMisses(files: map<string, seq<Text.byte>>, names: seq<string>,
                                          ds: seq<seq<Text.byte>>, n: nat, name: string)
    requires n <= |names| == |ds| && name !in files
    requires forall i :: 0 <= i < n ==> names[i] != name
    ensures name !in Archived(files, names, ds, n)
    decreases n
  {
    if n > 0 {
      ArchivedMisses(files, names, ds, n - 1, name);
    }
  }

  /** The crashers directory after one crash is archived: its five descriptions, under
      the digest of its key. */
  function CrashFiles(files: map<string, seq<Text.byte>>, hash: seq<Text.byte> -> Persistent.Sig,
                      info: Analyzer.Info, stamp: string, x: Externals): map<string, seq<Text.byte>> {
    Archived(files, DescNames(hash(Text.Bytes(CrashKey(info.node)))), Descriptions(info, stamp, x), |DescTypes|)
  }

  /** The crashers directory after the first `k` answers. */
  function ArchiveFold(files: map<string, seq<Text.byte>>, hash: seq<Text.byte> -> Persistent.Sig,
                       infos: seq<Analyzer.Info>, stamp: string, x: Externals, k: nat): map<string, seq<Text.byte>>
    requires k <= |infos|
  {
    if k == 0 then files
    else
      var f := ArchiveFold(files, hash, infos, stamp, x, k - 1);
      var info := infos[k - 1];
      if IsCrash(info.code) then CrashFiles(f, hash, info, stamp, x) else f
  }

  /** Answers that are no crash, the 599 sentinel among them, archive nothing; and an
      archived file is never overwritten. */
  lemma ArchiveOnlyCrashes(files: map<string, seq<Text.byte>>, hash: seq<Text.byte> -> Persistent.Sig,
                           infos: seq<Analyzer.Info>, stamp: string, x: Externals, k: nat)
    requires k <= |infos|
    ensures (forall j :: 0 <= j < k ==> !IsCrash(infos[j].code)) ==> ArchiveFold(files, hash, infos, stamp, x, k) == files
    ensures files.Keys <= ArchiveFold(files, hash, infos, stamp, x, k).Keys
    ensures forall f :: f in files ==> ArchiveFold(files, hash, infos, stamp, x, k)[f] == files[f]
  {
    if forall j :: 0 <= j < k ==> !IsCrash(infos[j].code) {
      ArchiveNoCrash(files, hash, infos, stamp, x, k);
    }
    ArchiveKeeps(files, hash, infos, stamp, x, k);
  }

  lemma {:induction false} ArchiveNoCrash(files: map<string, seq<Text.byte>>, hash: seq<Text.byte> -> Persistent.Sig,
                                          infos: seq<Analyzer.Info>, stamp: string, x: Externals, k: nat)
    requires k <= |infos| && forall j :: 0 <= j < k ==> !IsCrash(infos[j].code)
    ensures ArchiveFold(files, hash, infos, stamp, x, k) == files
    decreases k
  {
    if k > 0 {
      ArchiveNoCrash(files, hash, infos, stamp, x, k - 1);
    }
  }

  lemma {:induction false} ArchiveKeeps(files: map<string, seq<Text.byte>>, hash: seq<Text.byte> -> Persistent.Sig,
                                        infos: seq<Analyzer.Info>, stamp: string, x: Externals, k: nat)
    requires k <= |infos|
    ensures files.Keys <= ArchiveFold(files, hash, infos, stamp, x, k).Keys
    ensures forall f :: f in files ==> ArchiveFold(files, hash, infos, stamp, x, k)[f] == files[f]
    decreases k
  {
    if k > 0 {
      ArchiveKeeps(files, hash, infos, stamp, x, k - 1);
      var f := ArchiveFold(files, hash, infos, stamp, x, k - 1);
      var info := infos[k - 1];
      ArchivedGrows(f, DescNames(hash(Text.Bytes(CrashKey(info.node)))), Descriptions(info, stamp, x), |DescTypes|);
    }
  }

  /** Archiving only adds files. */
  lemma {:induction false} ArchivedGrows(files: map<string, seq<Text.byte>>, names: seq<string>,
                                         ds: seq<seq<Text.byte>>, n: nat)
    requires n <= |names| == |ds|
    ensures files.Keys <= Archived(files, names, ds, n).Keys
    ensures forall f :: f in files ==> Archived(files, names, ds, n)[f] == files[f]
    decreases n
  {
    if n > 0 {
      ArchivedGrows(files, names, ds, n - 1);
    }
  }

  // ---------------------------------------------------------------- sending a grammar

  /** The answers to the first `k` nodes, each node sent once, in order; the first
      panic ends the iteration. */
  function Sends(nodes: seq<Node>, ss: Sender.Session, x: Externals, net: nat -> Sender.Http, k: nat)
    : Result<seq<Analyzer.Info>>
    requires k <= |nodes|
  {
    if k == 0 then Success([])
    else
      match Sends(nodes, ss, x, net, k - 1)
      case Failure(e) => Failure(e)
      case Success(infos) =>
        match Sender.Outcome(nodes[k - 1], true, ss, x, net(k - 1))
        case Failure(e) => Failure(e)
        case Success(info) => Success(infos + [info])
  }

  /** Every node gets one answer, at its own position, recording the node. */
  lemma SendsAnswerEach(nodes: seq<Node>, ss: Sender.Session, x: Externals, net: nat -> Sender.Http, k: nat)
    requires k <= |nodes| && Sends(nodes, ss, x, net, k).Success?
    ensures |Sends(nodes, ss, x, net, k).value| == k
    ensures forall j :: 0 <= j < k ==>
      Sender.Outcome(nodes[j], true, ss, x, net(j)) == Success(Sends(nodes, ss, x, net, k).value[j]) &&
      Sends(nodes, ss, x, net, k).value[j].node == nodes[j]
  {
    SendsLength(nodes, ss, x, net, k);
    forall j | 0 <= j < k
      ensures Sender.Outcome(nodes[j], true, ss, x, net(j)) == Success(Sends(nodes, ss, x, net, k).value[j])
      ensures Sends(nodes, ss, x, net, k).value[j].node == nodes[j]
    {
      SendsAt(nodes, ss, x, net, k, j);
      Sender.AnswerNode(nodes[j], true, ss, x, net(j));
    }
  }

  lemma {:induction false} SendsLength(nodes: seq<Node>, ss: Sender.Session, x: Externals, net: nat -> Sender.Http, k: nat)
    requires k <= |nodes| && Sends(nodes, ss, x, net, k).Success?
    ensures |Sends(nodes, ss, x, net, k).value| == k
    decreases k
  {
    if k > 0 {
      SendsLength(nodes, ss, x, net, k - 1);
    }
  }

  lemma {:induction false} SendsAt(nodes: seq<Node>, ss: Sender.Session, x: Externals, net: nat -> Sender.Http,
                                   k: nat, j: nat)
    requires j < k <= |nodes| && Sends(nodes, ss, x, net, k).Success?
    ensures |Sends(nodes, ss, x, net, k).value| == k
    ensures Sender.Outcome(nodes[j], true, ss, x, net(j)) == Success(Sends(nodes, ss, x, net, k).value[j])
    decreases k
  {
    SendsLength(nodes, ss, x, net, k);
    var prev := Sends(nodes, ss, x, net, k - 1).value;
    assert Sends(nodes, ss, x, net, k).value == prev + [Sender.Outcome(nodes[k - 1], true, ss, x, net(k - 1)).value];
    if j < k - 1 {
      SendsAt(nodes, ss, x, net, k - 1, j);
    }
  }

  lemma {:induction false} SendsFail(nodes: seq<Node>, ss: Sender.Session, x: Externals, net: nat -> Sender.Http, k: nat)
    requires 0 < k <= |nodes| && Sends(nodes, ss, x, net, k).Failure?
    ensures Sends(nodes, ss, x, net, |nodes|) == Sends(nodes, ss, x, net, k)
    decreases |nodes| - k
  {
    if k < |nodes| {
      SendsFail(nodes, ss, x, net, k + 1);
    }
  }

  /** The group cache after the first `k` nodes. */
  function CacheFold(groups: map<nat, map<string, string>>, nodes: seq<Node>, ss: Sender.Session, x: Externals,
                     net: nat -> Sender.Http, k: nat): map<nat, map<string, string>>
    requires k <= |nodes|
  {
    if k == 0 then groups
    else Sender.CacheAfter(CacheFold(groups, nodes, ss, x, net, k - 1), nodes[k - 1], true, ss, x, net(k - 1))
  }

  /** What sending one node leaves behind: its answer, the reply that reached the network
      if there was one, and what archiving the answer does to the crashers directory. */
  datatype Sent = Sent(answer: Result<Analyzer.Info>, reply: Option<Exchange>,
                       archive: map<string, seq<Text.byte>> -> map<string, seq<Text.byte>>)

  function SentOf(node: Node, ss: Sender.Session, x: Externals, http: Sender.Http,
                  hash: seq<Text.byte> -> Persistent.Sig, stamp: string): Sent {
    var a := Sender.Outcome(node, true, ss, x, http);
    Sent(a,
         if Sender.Delivered(node, true, ss, x, http)
         then Some(http.send(Sender.WireOf(node, ss, Sender.Prepared(node, true, ss.token, x).value)))
         else None,
         f => if a.Success? then CrashFiles(f, hash, a.value, stamp, x) else f)
  }

  /** `trace` records the first nodes of the grammar, each sent on its own connection.
      The link to SentOf is used only where a SentOf term is already present. */
  ghost predicate Traced(nodes: seq<Node>, ss: Sender.Session, x: Externals, net: nat -> Sender.Http,
                         hash: seq<Text.byte> -> Persistent.Sig, stamp: string, trace: seq<Sent>) {
    |trace| <= |nodes| &&
    forall j {:trigger SentOf(nodes[j], ss, x, net(j), hash, stamp)} :: 0 <= j < |trace| ==>
      trace[j] == SentOf(nodes[j], ss, x, net(j), hash, stamp)
  }

  /** The answers recorded in a trace; the first panic ends them. */
  function AnswersOf(trace: seq<Sent>): (r: Result<seq<Analyzer.Info>>)
    ensures r.Success? ==> |r.value| == |trace|
  {
    if trace == [] then Success([])
    else
      match AnswersOf(trace[..|trace| - 1])
      case Failure(e) => Failure(e)
      case Success(infos) =>
        match trace[|trace| - 1].answer
        case Failure(e) => Failure(e)
        case Success(info) => Success(infos + [info])
  }

  /** The group cache after the replies recorded in a trace. */
  function CacheOf(groups: map<nat, map<string, string>>, nodes: seq<Node>, trace: seq<Sent>)
    : map<nat, map<string, string>>
    requires |trace| <= |nodes|
  {
    if trace == [] then groups
    else
      var g := CacheOf(groups, nodes, trace[..|trace| - 1]);
      match trace[|trace| - 1].reply
      case None => g
      case Some(reply) => Sender.Cached(g, nodes[|trace| - 1], reply)
  }

  /** The crashers directory after the crashes recorded in a trace. */
  function FilesOf(files: map<string, seq<Text.byte>>, trace: seq<Sent>): map<string, seq<Text.byte>> {
    if trace == [] then files
    else
      var f := FilesOf(files, trace[..|trace| - 1]);
      var a := trace[|trace| - 1].answer;
      if a.Success? && IsCrash(a.value.code) then trace[|trace| - 1].archive(f) else f
  }

  /** A prefix of a trace is a trace. */
  lemma TracedPrefix(nodes: seq<Node>, ss: Sender.Session, x: Externals, net: nat -> Sender.Http,
                     hash: seq<Text.byte> -> Persistent.Sig, stamp: string, trace: seq<Sent>, k: nat)
    requires k <= |trace| && Traced(nodes, ss, x, net, hash, stamp, trace)
    ensures Traced(nodes, ss, x, net, hash, stamp, trace[..k])
    ensures k < |trace| ==> trace[k] == SentOf(nodes[k], ss, x, net(k), hash, stamp)
  {
    var p := trace[..k];
    forall j | 0 <= j < |p| ensures p[j] == SentOf(nodes[j], ss, x, net(j), hash, stamp) {
      assert p[j] == trace[j];
    }
    if k < |trace| {
      assert trace[k] == SentOf(nodes[k], ss, x, net(k), hash, stamp);
    }
  }

  /** The answers of a trace are the answers of the grammar's nodes. */
  lemma {:induction false} TraceAnswers(nodes: seq<Node>, ss: Sender.Session, x: Externals, net: nat -> Sender.Http,
                                        hash: seq<Text.byte> -> Persistent.Sig, stamp: string, trace: seq<Sent>)
    requires Traced(nodes, ss, x, net, hash, stamp, trace)
    ensures AnswersOf(trace) == Sends(nodes, ss, x, net, |trace|)
    decreases |trace|
  {
    if trace != [] {
      var k := |trace| - 1;
      TracedPrefix(nodes, ss, x, net, hash, stamp, trace, k);
      TraceAnswers(nodes, ss, x, net, hash, stamp, trace[..k]);
    }
  }

  /** The cache of a trace is the cache after the grammar's nodes. */
  lemma {:induction false} TraceCache(groups: map<nat, map<string, string>>, nodes: seq<Node>, ss: Sender.Session,
                                      x: Externals, net: nat -> Sender.Http, hash: seq<Text.byte> -> Persistent.Sig,
                                      stamp: string, trace: seq<Sent>)
    requires Traced(nodes, ss, x, net, hash, stamp, trace)
    ensures CacheOf(groups, nodes, trace) == CacheFold(groups, nodes, ss, x, net, |trace|)
    decreases |trace|
  {
    if trace != [] {
      var k := |trace| - 1;
      TracedPrefix(nodes, ss, x, net, hash, stamp, trace, k);
      TraceCache(groups, nodes, ss, x, net, hash, stamp, trace[..k]);
    }
  }

  /** The crashers directory of a trace is the archive of the grammar's answers. */
  lemma {:induction false} TraceFiles(files: map<string, seq<Text.byte>>, nodes: seq<Node>, ss: Sender.Session,
                                      x: Externals, net: nat -> Sender.Http, hash: seq<Text.byte> -> Persistent.Sig,
                                      stamp: string, trace: seq<Sent>)
    requires Traced(nodes, ss, x, net, hash, stamp, trace) && AnswersOf(trace).Success?
    ensures FilesOf(files, trace) == ArchiveFold(files, hash, AnswersOf(trace).value, stamp, x, |trace|)
    decreases |trace|
  {
    if trace != [] {
      var k := |trace| - 1;
      var p := trace[..k];
      TracedPrefix(nodes, ss, x, net, hash, stamp, trace, k);
      TraceFiles(files, nodes, ss, x, net, hash, stamp, p);
      var info := trace[k].answer.value;
      assert AnswersOf(trace).value == AnswersOf(p).value + [info];
      ArchivePrefix(files, hash, AnswersOf(p).value, info, stamp, x);
    }
  }

  /** A grammar from the mutation round: the bytes stored as a corpus entry. */
  function Seed(nodes: seq<Node>, x: Externals): Persistent.Artifact {
    Persistent.Artifact(x.grammarBytes(nodes), 0, false)
  }

  /** The grammar generated when the corpus is empty. */
  function FreshGrammar(doc: Doc, deps: map<string, seq<Item>>, sorted: seq<string>, strict: bool, x: Externals)
    : Result<seq<Node>>
  {
    match Grammar.Orders(deps, strict, sorted)
    case Failure(e) => Failure(e)
    case Success(orders) => Grammar.GrammarSpec(Grammar.GroupsOf(doc, strict, x), sorted, orders, |sorted|)
  }

  /** A directory as found on disk: its files, and the order a walk visits them. */
  datatype Dir = Dir(files: map<string, seq<Text.byte>>, walk: seq<(string, seq<Text.byte>)>)

  // ---------------------------------------------------------------- the fuzzer

  class HsuanFuzz {
    const doc: Doc
    const server: string
    const sortedPaths: seq<string>
    const methods: nat
    const strict: bool
    const dependency: Dependency
    const x: Externals
    const cache: Sender.GroupCache
    const corpus: Persistent.PersistentSet
    const crashers: Persistent.PersistentSet
    var token: Auth.Token
    var endCov: seq<int>
    var queue: seq<Persistent.Sig>
    var grammar: seq<Node>

    /** The stored coverage has one level per operation, the two stores are apart, and
        every queued digest is in the corpus. */
    ghost predicate Valid()
      reads this, corpus
    {
      |endCov| == methods && corpus != crashers && forall s :: s in queue ==> s in corpus.M
    }

    /** What sending the grammar's nodes in the current session yields. */
    ghost function Sent(net: nat -> Sender.Http): (r: Result<seq<Analyzer.Info>>)
      reads this
      ensures r.Success? ==> |r.value| == |grammar|
    {
      var ss := Sender.Session(server, strict, token);
      if Sends(grammar, ss, x, net, |grammar|).Success? then
        SendsLength(grammar, ss, x, net, |grammar|);
        Sends(grammar, ss, x, net, |grammar|)
      else Sends(grammar, ss, x, net, |grammar|)
    }

    /** The levels one iteration's answers score. */
    ghost function Scored(infos: seq<Analyzer.Info>): Result<seq<int>> {
      Analyzer.CoverageSpec(Analyzer.Scorer(doc, sortedPaths, strict, dependency.posts, methods, x), infos)
    }

    /** The grammar that seeds an empty corpus. */
    ghost function Fresh(): Result<seq<Node>> {
      FreshGrammar(doc, dependency.paths, sortedPaths, strict, x)
    }

    /** The mutation round a seed goes through, with the cache as it stands. */
    ghost function RoundWith(dice: Mutator.Dice): Mutator.Round
      reads cache
    {
      Mutator.Round(strict, dependency.paths, cache.groups, x, dice)
    }

    /** The last part of New: the two stores are loaded from their directories, the
        cache is empty and the stored coverage is all zeros. */
    constructor (setup: Setup, doc: Doc, strict: bool, x: Externals, hash: seq<Text.byte> -> Persistent.Sig,
                 corpusDir: Dir, crashersDir: Dir)
      requires Persistent.Mirrors(corpusDir.files, corpusDir.walk)
      requires Persistent.Mirrors(crashersDir.files, crashersDir.walk)
      ensures Valid()
      ensures this.doc == doc && server == setup.server && sortedPaths == setup.sortedPaths
      ensures methods == setup.methods && this.strict == strict && this.x == x
      ensures token == setup.token && dependency == setup.dependency
      ensures endCov == seq(setup.methods, _ => 0) && queue == [] && grammar == []
      ensures cache.groups == map[]
      ensures corpus.M == Persistent.LoadSpec(map[], corpusDir.walk, hash, |corpusDir.walk|)
      ensures crashers.M == Persistent.LoadSpec(map[], crashersDir.walk, hash, |crashersDir.walk|)
    {
      this.doc := doc;
      server := setup.server;
      sortedPaths := setup.sortedPaths;
      methods := setup.methods;
      this.strict := strict;
      dependency := setup.dependency;
      this.x := x;
      cache := new Sender.GroupCache();
      corpus := new Persistent.PersistentSet(hash, corpusDir.files, corpusDir.walk);
      crashers := new Persistent.PersistentSet(hash, crashersDir.files, crashersDir.walk);
      token := setup.token;
      endCov := seq(setup.methods, _ => 0);
      queue := [];
      grammar := [];
    }

    /** An empty corpus is seeded with a freshly generated grammar. */
    method Bootstrap() returns (err: Option<string>)
      requires Valid()
      modifies this, corpus
      ensures Valid() && queue == old(queue) && endCov == old(endCov) && token == old(token)
      ensures old(corpus.M).Keys <= corpus.M.Keys
      ensures old(|corpus.M|) != 0 ==> err.None? && corpus.M == old(corpus.M) && grammar == old(grammar)
      ensures old(|corpus.M|) == 0 ==>
        var g := FreshGrammar(doc, dependency.paths, sortedPaths, strict, x);
        (err.None? <==> g.Success?) && (g.Failure? ==> err == Some(g.error)) &&
        (g.Success? ==> (grammar == g.value &&
           corpus.M == map[corpus.hash(x.grammarBytes(g.value)) := Seed(g.value, x)]))
    {
      err := None;
      if |corpus.M| == 0 {
        var g := Grammar.GenerateGrammar(doc, dependency.paths, sortedPaths, strict, x);
        if g.Failure? {
          return Some(g.error);
        }
        grammar := g.value;
        var _ := corpus.Add(Seed(g.value, x));
      }
    }

    /** Refills an empty queue with every corpus digest, in map order, then pops the head. */
    method NextSeed() returns (s: Persistent.Sig)
      requires Valid() && |corpus.M| > 0
      modifies this
      ensures Valid() && s in corpus.M
      ensures endCov == old(endCov) && grammar == old(grammar) && token == old(token)
      ensures old(queue) != [] ==> s == old(queue)[0] && queue == old(queue)[1..]
      ensures old(queue) == [] ==>
        |queue| + 1 == |corpus.M| && forall d :: d in corpus.M <==> d == s || d in queue
    {
      if queue == [] {
        queue := Enumerate(corpus.M.Keys);
      }
      s := queue[0];
      queue := queue[1..];
    }

    /** Files a crash under its key: five descriptions, each written once. */
    method Archive(info: Analyzer.Info, stamp: string)
      modifies crashers
      ensures crashers.files == CrashFiles(old(crashers.files), crashers.hash, info, stamp, x)
      ensures crashers.M == old(crashers.M)
    {
      var key := Text.Bytes(CrashKey(info.node));
      ghost var names := DescNames(crashers.hash(key));
      var ds := Descriptions(info, stamp, x);
      crashers.AddDescription(key, ds[0], "code");
      assert crashers.files == Archived(old(crashers.files), names, ds, 1);
      crashers.AddDescription(key, ds[1], "timestamp");
      assert crashers.files == Archived(old(crashers.files), names, ds, 2);
      crashers.AddDescription(key, ds[2], "node");
      assert crashers.files == Archived(old(crashers.files), names, ds, 3);
      crashers.AddDescription(key, ds[3], "request");
      assert crashers.files == Archived(old(crashers.files), names, ds, 4);
      crashers.AddDescription(key, ds[4], "response");
    }

    /** The node loop: sends each node, keeps its answer and archives it if it is a
        crash. */
    method SendAll(nodes: seq<Node>, net: nat -> Sender.Http, stamp: string) returns (r: Result<seq<Analyzer.Info>>)
      modifies cache, crashers
      ensures r == Sends(nodes, Sender.Session(server, strict, token), x, net, |nodes|)
      ensures r.Success? ==> |r.value| == |nodes|
      ensures r.Success? ==>
        cache.groups == CacheFold(old(cache.groups), nodes, Sender.Session(server, strict, token), x, net, |nodes|) &&
        crashers.files == ArchiveFold(old(crashers.files), crashers.hash, r.value, stamp, x, |nodes|)
      ensures crashers.M == old(crashers.M)
    {
      ghost var trace;
      r, trace := SendTrace(nodes, net, stamp);
      ghost var ss := Sender.Session(server, strict, token);
      TraceAnswers(nodes, ss, x, net, crashers.hash, stamp, trace);
      if r.Failure? {
        SendsFail(nodes, ss, x, net, |trace|);
      } else {
        TraceCache(old(cache.groups), nodes, ss, x, net, crashers.hash, stamp, trace);
        TraceFiles(old(crashers.files), nodes, ss, x, net, crashers.hash, stamp, trace);
      }
    }

    /** The node loop, stated on the trace of what each node left behind. */
    method SendTrace(nodes: seq<Node>, net: nat -> Sender.Http, stamp: string)
      returns (r: Result<seq<Analyzer.Info>>, ghost trace: seq<Sent>)
      modifies cache, crashers
      ensures Traced(nodes, Sender.Session(server, strict, token), x, net, crashers.hash, stamp, trace)
      ensures r == AnswersOf(trace)
      ensures r.Success? ==> |trace| == |nodes|
      ensures r.Failure? ==> 0 < |trace|
      ensures r.Success? ==>
        cache.groups == CacheOf(old(cache.groups), nodes, trace) &&
        crashers.files == FilesOf(old(crashers.files), trace)
      ensures crashers.M == old(crashers.M)
    {
      var ss := Sender.Session(server, strict, token);
      var infos: seq<Analyzer.Info> := [];
      trace := [];
      var k := 0;
      while k < |nodes|
        invariant k <= |nodes| && |trace| == k
        invariant Traced(nodes, ss, x, net, crashers.hash, stamp, trace)
        invariant AnswersOf(trace) == Success(infos)
        invariant cache.groups == CacheOf(old(cache.groups), nodes, trace)
        invariant crashers.files == FilesOf(old(crashers.files), trace)
        invariant crashers.M == old(crashers.M)
      {
        var info;
        info, trace := SendNext(nodes, k, net, stamp, trace);
        if info.Failure? {
          return Failure(info.error), trace;
        }
        infos := infos + [info.value];
        k := k + 1;
      }
      r := Success(infos);
    }

    /** One step of the node loop: the next node is sent and what it left behind is
        appended to the trace. */
    method SendNext(nodes: seq<Node>, k: nat, net: nat -> Sender.Http, stamp: string, ghost trace: seq<Sent>)
      returns (r: Result<Analyzer.Info>, ghost next: seq<Sent>)
      requires k == |trace| < |nodes|
      requires Traced(nodes, Sender.Session(server, strict, token), x, net, crashers.hash, stamp, trace)
      modifies cache, crashers
      ensures Traced(nodes, Sender.Session(server, strict, token), x, net, crashers.hash, stamp, next)
      ensures |next| == k + 1 && next[..k] == trace && r == next[k].answer
      ensures cache.groups == match next[k].reply
        case None => old(cache.groups)
        case Some(reply) => Sender.Cached(old(cache.groups), nodes[k], reply)
      ensures crashers.files ==
        if r.Success? && IsCrash(r.value.code) then next[k].archive(old(crashers.files)) else old(crashers.files)
      ensures crashers.M == old(crashers.M)
    {
      ghost var s := SentOf(nodes[k], Sender.Session(server, strict, token), x, net(k), crashers.hash, stamp);
      r := SendOne(nodes[k], net(k), stamp);
      next := trace + [s];
      assert next[..k] == trace;
    }

    /** One node of the loop: its answer, the cache after it, and the crash archived when
        the answer is one. */
    method SendOne(node: Node, http: Sender.Http, stamp: string) returns (r: Result<Analyzer.Info>)
      modifies cache, crashers
      ensures r == Sender.Outcome(node, true, Sender.Session(server, strict, token), x, http)
      ensures cache.groups == Sender.CacheAfter(old(cache.groups), node, true, Sender.Session(server, strict, token), x, http)
      ensures crashers.files ==
        if r.Success? && IsCrash(r.value.code) then CrashFiles(old(crashers.files), crashers.hash, r.value, stamp, x)
        else old(crashers.files)
      ensures crashers.M == old(crashers.M)
    {
      r := cache.SendRequest(node, true, Sender.Session(server, strict, token), x, http);
      if r.Success? && IsCrash(r.value.code) {
        Archive(r.value, stamp);
      }
    }

    /** The merge: the stored coverage becomes the pointwise maximum; on an increase
        under guidance the mutated grammar joins the corpus. */
    method Merge(cov: seq<int>, guided: bool) returns (flag: bool)
      requires Valid() && |cov| == |endCov|
      modifies this, corpus
      ensures Valid() && queue == old(queue) && grammar == old(grammar) && token == old(token)
      ensures flag <==> Analyzer.SomeIncrease(cov, old(endCov))
      ensures endCov == Analyzer.PointwiseMax(cov, old(endCov))
      ensures AtLeast(endCov, old(endCov)) && (flag <==> endCov != old(endCov))
      ensures old(corpus.M).Keys <= corpus.M.Keys
      ensures corpus.M == if flag && guided
        then Persistent.WriteOnce(old(corpus.M), corpus.hash(x.grammarBytes(grammar)), Seed(grammar, x))
        else old(corpus.M)
    {
      var a := new int[|cov|](i => if 0 <= i < |cov| then cov[i] else 0);
      assert a[..] == cov;
      flag := Analyzer.IsIndividualIncrease(a, endCov);
      if flag {
        endCov := a[..];
        if guided {
          var _ := corpus.Add(Seed(grammar, x));
        }
      }
      Analyzer.MergeStable(cov, old(endCov));
    }

    /** The first half of an iteration of Fuzz: seeds an empty corpus, takes the next
        seed, unmarshals and mutates it, and in strict mode logs in again. */
    method Prepare(dice: Mutator.Dice, loginText: string, login: Auth.Login -> Exchange)
      returns (err: Option<string>, ghost sig: Persistent.Sig)
      requires Valid()
      modifies this, corpus
      ensures Valid() && endCov == old(endCov) && old(corpus.M).Keys <= corpus.M.Keys
      ensures old(|corpus.M|) != 0 ==> corpus.M == old(corpus.M)
      ensures old(|corpus.M|) == 0 ==>
        var g := FreshGrammar(doc, dependency.paths, sortedPaths, strict, x);
        (g.Failure? ==> err == Some(g.error)) &&
        (g.Success? ==> corpus.M == map[corpus.hash(x.grammarBytes(g.value)) := Seed(g.value, x)])
      ensures old(|corpus.M|) != 0 || FreshGrammar(doc, dependency.paths, sortedPaths, strict, x).Success? ==>
        sig in corpus.M &&
        (old(queue) != [] ==> sig == old(queue)[0] && queue == old(queue)[1..]) &&
        (old(queue) == [] ==> |queue| + 1 == |corpus.M| && forall d :: d in corpus.M <==> d == sig || d in queue) &&
        (err.None? <==> Prepared(x.grammarOf(corpus.M[sig].data), RoundWith(dice),
                                 strict ==> Auth.TokenSpec(old(token), loginText, login, x).Success?)) &&
        (err.None? ==> Mutated(grammar, x.grammarOf(corpus.M[sig].data).value, RoundWith(dice)))
      ensures !strict ==> token == old(token)
      ensures strict && err.None? ==>
        token == old(token).(bearer := Auth.TokenSpec(old(token), loginText, login, x).value)
    {
      sig := seq(20, _ => 0);
      err := Bootstrap();
      if err.Some? {
        return;
      }
      err, sig := NextGrammar(dice, loginText, login);
    }

    /** Takes the next seed, unmarshals and mutates it, and in strict mode logs in again.
        It fails when the seed does not unmarshal, when a node's mutation panics, or when
        the login does. */
    method NextGrammar(dice: Mutator.Dice, loginText: string, login: Auth.Login -> Exchange)
      returns (err: Option<string>, ghost sig: Persistent.Sig)
      requires Valid() && |corpus.M| > 0
      modifies this
      ensures Valid() && sig in corpus.M && endCov == old(endCov)
      ensures old(queue) != [] ==> sig == old(queue)[0] && queue == old(queue)[1..]
      ensures old(queue) == [] ==>
        |queue| + 1 == |corpus.M| && forall d :: d in corpus.M <==> d == sig || d in queue
      ensures x.grammarOf(corpus.M[sig].data).None? ==> err == Some("cannot unmarshal seed")
      ensures err.None? <==> Prepared(x.grammarOf(corpus.M[sig].data), RoundWith(dice),
                                      strict ==> Auth.TokenSpec(old(token), loginText, login, x).Success?)
      ensures err.None? ==> Mutated(grammar, x.grammarOf(corpus.M[sig].data).value, RoundWith(dice))
      ensures !strict ==> token == old(token)
      ensures strict && err.None? ==>
        token == old(token).(bearer := Auth.TokenSpec(old(token), loginText, login, x).value)
    {
      var s := NextSeed();
      sig := s;
      var g := x.grammarOf(corpus.M[s].data);
      if g.None? {
        return Some("cannot unmarshal seed"), sig;
      }
      var mutated := Mutator.AdoptStrategies(g.value, Mutator.Round(strict, dependency.paths, cache.groups, x, dice));
      if mutated.Failure? {
        return Some(mutated.error), sig;
      }
      grammar := mutated.value;
      if strict {
        var bearer := Auth.GetToken(token, loginText, login, x);
        if bearer.Failure? {
          return Some(bearer.error), sig;
        }
        token := token.(bearer := bearer.value);
      }
      err := None;
    }

    /** The second half of an iteration: sends the grammar's nodes, scores the answers
        and merges the coverage. */
    method Execute(guided: bool, net: nat -> Sender.Http, stamp: string) returns (r: Result<bool>)
      requires Valid()
      modifies this, corpus, crashers, cache
      ensures queue == old(queue) && token == old(token) && grammar == old(grammar)
      ensures crashers.M == old(crashers.M)
      ensures r.Success? ==> Valid() && old(corpus.M).Keys <= corpus.M.Keys
      ensures r.Success? ==> AtLeast(endCov, old(endCov)) && (r.value <==> endCov != old(endCov))
      ensures r.Success? ==> Sent(net).Success? && Scored(Sent(net).value).Success?
      ensures Sent(net).Failure? ==> r == Failure(Sent(net).error)
      ensures Sent(net).Success? ==>
        cache.groups == CacheFold(old(cache.groups), grammar, Sender.Session(server, strict, token), x, net, |grammar|) &&
        crashers.files == ArchiveFold(old(crashers.files), crashers.hash, Sent(net).value, stamp, x, |grammar|)
      ensures Sent(net).Success? && Scored(Sent(net).value).Failure? ==> r == Failure(Scored(Sent(net).value).error)
      ensures Sent(net).Success? && Scored(Sent(net).value).Success? ==>
        r.Success? && |Scored(Sent(net).value).value| == methods &&
        endCov == Analyzer.PointwiseMax(Scored(Sent(net).value).value, old(endCov)) &&
        corpus.M == if r.value && guided
          then Persistent.WriteOnce(old(corpus.M), corpus.hash(x.grammarBytes(grammar)), Seed(grammar, x))
          else old(corpus.M)
    {
      var infos := SendAll(grammar, net, stamp);
      if infos.Failure? {
        return Failure(infos.error);
      }
      var sc := Analyzer.Scorer(doc, sortedPaths, strict, dependency.posts, methods, x);
      var cov := Analyzer.CoverageLevels(sc, infos.value);
      if cov.Failure? {
        return Failure(cov.error);
      }
      Analyzer.CoverageRange(sc, infos.value);
      var flag := Merge(cov.value, guided);
      r := Success(flag);
    }

    /** One iteration of Fuzz. Every Go panic ends it with a failure. `pool` is the
        corpus once an empty one has been seeded, and `sig` the seed taken from it. */
    method Step(guided: bool, dice: Mutator.Dice, loginText: string, login: Auth.Login -> Exchange,
                net: nat -> Sender.Http, stamp: string)
      returns (r: Result<bool>, ghost sig: Persistent.Sig, ghost pool: map<Persistent.Sig, Persistent.Artifact>)
      requires Valid()
      modifies this, corpus, crashers, cache
      ensures r.Success? ==> Valid() && old(corpus.M).Keys <= corpus.M.Keys
      ensures r.Success? ==> AtLeast(endCov, old(endCov)) && (r.value <==> endCov != old(endCov))
      ensures crashers.M == old(crashers.M)
      ensures !strict ==> token == old(token)
      ensures old(|corpus.M|) != 0 ==> pool == old(corpus.M)
      ensures old(|corpus.M|) == 0 && Fresh().Failure? ==> r == Failure(Fresh().error)
      ensures old(|corpus.M|) == 0 && Fresh().Success? ==>
        pool == map[corpus.hash(x.grammarBytes(Fresh().value)) := Seed(Fresh().value, x)]
      ensures old(|corpus.M|) != 0 || Fresh().Success? ==>
        sig in pool &&
        (old(queue) != [] ==> sig == old(queue)[0] && queue == old(queue)[1..]) &&
        (old(queue) == [] ==> |queue| + 1 == |pool| && forall d :: d in pool <==> d == sig || d in queue) &&
        var seed := x.grammarOf(pool[sig].data);
        var bearer := Auth.TokenSpec(old(token), loginText, login, x);
        (!Prepared(seed, old(RoundWith(dice)), strict ==> bearer.Success?) ==> r.Failure?) &&
        (Prepared(seed, old(RoundWith(dice)), strict ==> bearer.Success?) ==>
          Mutated(grammar, seed.value, old(RoundWith(dice))) &&
          (strict ==> token == old(token).(bearer := bearer.value)) &&
          (Sent(net).Failure? ==> r == Failure(Sent(net).error)) &&
          (Sent(net).Success? ==>
            cache.groups == CacheFold(old(cache.groups), grammar, Sender.Session(server, strict, token), x, net, |grammar|) &&
            crashers.files == ArchiveFold(old(crashers.files), crashers.hash, Sent(net).value, stamp, x, |grammar|)) &&
          (Sent(net).Success? && Scored(Sent(net).value).Failure? ==> r == Failure(Scored(Sent(net).value).error)) &&
          (Sent(net).Success? && Scored(Sent(net).value).Success? ==>
            r.Success? && |Scored(Sent(net).value).value| == methods &&
            endCov == Analyzer.PointwiseMax(Scored(Sent(net).value).value, old(endCov)) &&
            corpus.M == if r.value && guided
              then Persistent.WriteOnce(pool, corpus.hash(x.grammarBytes(grammar)), Seed(grammar, x))
              else pool))
    {
      var err;
      err, sig := Prepare(dice, loginText, login);
      pool := corpus.M;
      if err.Some? {
        return Failure(err.value), sig, pool;
      }
      r := Execute(guided, net, stamp);
    }
  }

  /** `r` is the grammar `g` with every node replaced by its mutated self. */
  predicate Mutated(r: seq<Node>, g: seq<Node>, rd: Mutator.Round) {
    |r| == |g| && forall k :: 0 <= k < |g| ==> Mutator.NodeRound(g, rd, k) == Success(r[k])
  }

  /** A seed that unmarshals, whose every node mutates without a panic, and whose login
      (when one is needed) succeeds. */
  predicate Prepared(g: Option<seq<Node>>, rd: Mutator.Round, loggedIn: bool) {
    g.Some? && (forall k :: 0 <= k < |g.value| ==> Mutator.NodeRound(g.value, rd, k).Success?) && loggedIn
  }

  /** Every level of `a` is at least the level of `b` at the same position. */
  predicate AtLeast(a: seq<int>, b: seq<int>) {
    |a| == |b| && forall i :: 0 <= i < |a| ==> a[i] >= b[i]
  }

  /** Archiving the next answer extends the fold by that answer. */
  lemma ArchivePrefix(files: map<string, seq<Text.byte>>, hash: seq<Text.byte> -> Persistent.Sig,
                      infos: seq<Analyzer.Info>, info: Analyzer.Info, stamp: string, x: Externals)
    ensures ArchiveFold(files, hash, infos + [info], stamp, x, |infos|) == ArchiveFold(files, hash, infos, stamp, x, |infos|)
    ensures ArchiveFold(files, hash, infos + [info], stamp, x, |infos| + 1) ==
      var f := ArchiveFold(files, hash, infos, stamp, x, |infos|);
      if IsCrash(info.code) then CrashFiles(f, hash, info, stamp, x) else f
  {
    ArchiveFoldPrefix(files, hash, infos, infos + [info], stamp, x, |infos|);
  }

  lemma {:induction false} ArchiveFoldPrefix(files: map<string, seq<Text.byte>>, hash: seq<Text.byte> -> Persistent.Sig,
                                             a: seq<Analyzer.Info>, b: seq<Analyzer.Info>, stamp: string, x: Externals, k: nat)
    requires k <= |a| && k <= |b| && a[..k] == b[..k]
    ensures ArchiveFold(files, hash, a, stamp, x, k) == ArchiveFold(files, hash, b, stamp, x, k)
    decreases k
  {
    if k > 0 {
      assert a[..k - 1] == b[..k - 1] by { assert a[..k - 1] == a[..k][..k - 1]; assert b[..k - 1] == b[..k][..k - 1]; }
      assert a[k - 1] == a[..k][k - 1];
      assert b[k - 1] == b[..k][k - 1];
      ArchiveFoldPrefix(files, hash, a, b, stamp, x, k - 1);
    }
  }

  /** Go's map iteration: every element of the set once, in an order the model does not
      fix. */
  method Enumerate<T>(s: set<T>) returns (r: seq<T>)
    ensures |r| == |s| && forall e :: e in r <==> e in s
  {
    r := [];
    var rest := s;
    while rest != {}
      invariant |r| + |rest| == |s|
      invariant forall e :: e in s <==> e in r || e in rest
      invariant forall e :: e in r ==> e !in rest
      decreases |rest|
    {
      var e :| e in rest;
      r := r + [e];
      rest := rest - {e};
    }
  }
}
