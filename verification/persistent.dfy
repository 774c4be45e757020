/** The content-addressed corpus store: artifacts keyed by the SHA-1 digest of their data,
    mirrored into one directory whose files are named after the digest in lower-case hex.
    SHA-1 is a given function; the directory is a map from file name to contents. */
module Persistent {
  import opened Text

  /** A SHA-1 digest: 20 bytes. */
  type Sig = s: seq<byte> | |s| == 20 witness seq(20, _ => 0)

  /** Two hex characters per digest byte. */
  const HexLen: nat := 40

  /** A stored blob: its data, a user number carried in the file name, and whether the
      file was put in the directory by hand rather than by the store. */
  datatype Artifact = Artifact(data: seq<byte>, meta: uint64, user: bool)

  // ---------------------------------------------------------------- hex names

  predicate IsHexChar(c: char) {
    '0' <= c <= '9' || 'a' <= c <= 'f'
  }

  /** Lower-case hex digits only; upper case is rejected and the empty string passes. */
  predicate IsHex(s: string) {
    forall i :: 0 <= i < |s| ==> IsHexChar(s[i])
  }

  /** isHexString: byte by byte, stopping at the first one that is not a hex digit. */
  method IsHexString(s: string) returns (b: bool)
    ensures b <==> forall i :: 0 <= i < |s| ==> ('0' <= s[i] <= '9' || 'a' <= s[i] <= 'f')
  {
    var i := 0;
    while i < |s|
      invariant 0 <= i <= |s|
      invariant forall k :: 0 <= k < i ==> IsHexChar(s[k])
    {
      if !('0' <= s[i] <= '9' || 'a' <= s[i] <= 'f') {
        return false;
      }
      i := i + 1;
    }
    b := true;
  }

  function HexDigit(d: nat): (c: char)
    requires d < 16
    ensures IsHexChar(c)
  {
    if d < 10 then DigitChar(d) else ('a' as int + d - 10) as char
  }

  /** hex.EncodeToString: two lower-case digits per byte, high nibble first. */
  function Hex(s: seq<byte>): string
    decreases |s|
  {
    if s == [] then []
    else Hex(s[..|s| - 1]) + [HexDigit(s[|s| - 1] / 16), HexDigit(s[|s| - 1] % 16)]
  }

  /** A hex encoding is twice as long as the bytes and made of hex digits only. */
  lemma {:induction false} HexShape(s: seq<byte>)
    ensures |Hex(s)| == 2 * |s| && IsHex(Hex(s))
    decreases |s|
  {
    if s != [] {
      HexShape(s[..|s| - 1]);
    }
  }

  /** persistentFilename, without the directory: the digest in hex, then "-<meta>" when
      the meta number is not 0. */
  function FileName(a: Artifact, sig: Sig): string {
    Hex(sig) + (if a.meta != 0 then "-" + NatToString(a.meta) else "")
  }

  /** The name of a description file of the blob with digest `sig`. */
  function DescName(sig: Sig, typ: string): string {
    Hex(sig) + "." + typ
  }

  /** How a file found on load is read: a description file is skipped; any other file is
      a blob with the meta number from its name and a flag for hand-made files. */
  datatype Kind = Description | Blob(meta: uint64, user: bool)

  function Classify(name: string): Kind {
    var hexPrefix := |name| >= HexLen && IsHex(name[..HexLen]);
    if |name| > HexLen + 1 && hexPrefix && name[HexLen] == '.' then Description
    else
      var meta := if |name| > HexLen + 1 && hexPrefix && name[HexLen] == '-'
        then ParseUint64(name[HexLen + 1..]).value else 0;
      Blob(meta, |name| < HexLen || !IsHex(name[..HexLen]))
  }

  /** A file the store wrote is read back with the meta number it was written with, and
      as not hand-made. */
  lemma FileNameRoundTrip(a: Artifact, sig: Sig)
    ensures Classify(FileName(a, sig)) == Blob(a.meta, false)
  {
    var name := FileName(a, sig);
    HexShape(sig);
    assert name[..HexLen] == Hex(sig);
    if a.meta != 0 {
      NatToStringDigits(a.meta);
      assert name[HexLen + 1..] == NatToString(a.meta);
      ParseUintNatToString(a.meta);
    }
  }

  /** A description file with a non-empty type is skipped on load. */
  lemma DescNameSkipped(sig: Sig, typ: string)
    requires typ != ""
    ensures Classify(DescName(sig, typ)) == Description
  {
    HexShape(sig);
    assert DescName(sig, typ)[..HexLen] == Hex(sig);
  }

  /** A file whose name does not start with 40 hex digits is a hand-made blob with meta
      number 0. */
  lemma ForeignNameIsUser(name: string)
    requires |name| < HexLen || !IsHex(name[..HexLen])
    ensures Classify(name) == Blob(0, true)
  {
  }

  // ---------------------------------------------------------------- the store

  /** A write that keeps what is already there. */
  function WriteOnce<K, V>(m: map<K, V>, k: K, v: V): (r: map<K, V>)
    ensures r.Keys == m.Keys + {k}
    ensures k in m ==> r == m
    ensures k !in m ==> r[k] == v && forall j :: j in m ==> r[j] == m[j]
  {
    if k in m then m else m[k := v]
  }

  /** One file of the walk: a digest already present or a description file leaves the
      store as it is; any other file adds its blob. */
  function LoadStep(m: map<Sig, Artifact>, name: string, data: seq<byte>, hash: seq<byte> -> Sig): map<Sig, Artifact> {
    var sig := hash(data);
    if sig in m then m
    else
      match Classify(name)
      case Description => m
      case Blob(meta, user) => m[sig := Artifact(data, meta, user)]
  }

  /** The store after loading the first `k` files of the walk. */
  function LoadSpec(m: map<Sig, Artifact>, walk: seq<(string, seq<byte>)>, hash: seq<byte> -> Sig, k: nat)
    : map<Sig, Artifact>
    requires k <= |walk|
  {
    if k == 0 then m else LoadStep(LoadSpec(m, walk, hash, k - 1), walk[k - 1].0, walk[k - 1].1, hash)
  }

  /** Loading never changes or drops what the store already holds. */
  lemma {:induction false} LoadKeeps(m: map<Sig, Artifact>, walk: seq<(string, seq<byte>)>, hash: seq<byte> -> Sig, k: nat)
    requires k <= |walk|
    ensures forall s :: s in m ==> s in LoadSpec(m, walk, hash, k) && LoadSpec(m, walk, hash, k)[s] == m[s]
    decreases k
  {
    if k > 0 {
      LoadKeeps(m, walk, hash, k - 1);
    }
  }

  /** A blob file of the walk: its data has digest `s` and its name is not a description's. */
  predicate BlobOf(walk: seq<(string, seq<byte>)>, hash: seq<byte> -> Sig, s: Sig, i: nat)
    requires i < |walk|
  {
    hash(walk[i].1) == s && Classify(walk[i].0).Blob?
  }

  /** A digest the store did not hold and no blob file of the walk has stays absent. */
  lemma {:induction false} LoadNone(m: map<Sig, Artifact>, walk: seq<(string, seq<byte>)>, hash: seq<byte> -> Sig,
                                    k: nat, s: Sig)
    requires k <= |walk| && s !in m
    requires forall i :: 0 <= i < k ==> !BlobOf(walk, hash, s, i)
    ensures s !in LoadSpec(m, walk, hash, k)
    decreases k
  {
    if k > 0 {
      LoadNone(m, walk, hash, k - 1, s);
      assert !BlobOf(walk, hash, s, k - 1);
    }
  }

  /** For a digest the store did not hold, the first blob file with that digest wins. */
  lemma {:induction false} LoadFirstWins(m: map<Sig, Artifact>, walk: seq<(string, seq<byte>)>, hash: seq<byte> -> Sig,
                                         k: nat, s: Sig, i: nat)
    requires i < k <= |walk| && s !in m
    requires BlobOf(walk, hash, s, i) && forall j :: 0 <= j < i ==> !BlobOf(walk, hash, s, j)
    ensures s in LoadSpec(m, walk, hash, k)
    ensures LoadSpec(m, walk, hash, k)[s] == Artifact(walk[i].1, Classify(walk[i].0).meta, Classify(walk[i].0).user)
    decreases k
  {
    if i < k - 1 {
      LoadFirstWins(m, walk, hash, k - 1, s, i);
    } else {
      LoadNone(m, walk, hash, k - 1, s);
    }
  }

  /** A walk of a directory visits files that are on the disk, with their contents. */
  predicate Mirrors(disk: map<string, seq<byte>>, walk: seq<(string, seq<byte>)>) {
    forall i :: 0 <= i < |walk| ==> walk[i].0 in disk && disk[walk[i].0] == walk[i].1
  }

  /** The set of blobs with its mirror directory. */
  class PersistentSet {
    var M: map<Sig, Artifact>
    var files: map<string, seq<byte>>
    const hash: seq<byte> -> Sig

    /** NewPersistentSet: an empty store that then reads the directory, file by file in
        the walk's order. */
    constructor (hash: seq<byte> -> Sig, disk: map<string, seq<byte>>, walk: seq<(string, seq<byte>)>)
      requires Mirrors(disk, walk)
      ensures this.hash == hash && files == disk
      ensures M == LoadSpec(map[], walk, hash, |walk|)
    {
      this.hash := hash;
      M := map[];
      files := disk;
      new;
      ReadInDir(walk);
    }

    /** readInDir: a file whose digest is already stored is ignored, a description file is
        skipped, any other file is stored with the meta number and user flag its name
        gives. */
    method ReadInDir(walk: seq<(string, seq<byte>)>)
      modifies this
      ensures M == LoadSpec(old(M), walk, hash, |walk|) && files == old(files)
    {
      ghost var m0 := M;
      var k := 0;
      while k < |walk|
        invariant 0 <= k <= |walk|
        invariant M == LoadSpec(m0, walk, hash, k) && files == old(files)
      {
        var name := walk[k].0;
        var data := walk[k].1;
        var sig := hash(data);
        if sig !in M {
          var hexPrefix := false;
          if |name| >= HexLen {
            hexPrefix := IsHexString(name[..HexLen]);
          }
          if !(|name| > HexLen + 1 && hexPrefix && name[HexLen] == '.') {
            var meta: uint64 := 0;
            if |name| > HexLen + 1 && hexPrefix && name[HexLen] == '-' {
              meta := ParseUint64(name[HexLen + 1..]).value;
            }
            M := M[sig := Artifact(data, meta, |name| < HexLen || !hexPrefix)];
          }
        }
        k := k + 1;
      }
    }

    /** Add: stores the artifact and writes its file unless its digest is already there;
        reports whether it did. */
    method Add(a: Artifact) returns (added: bool)
      modifies this
      ensures added <==> hash(a.data) !in old(M)
      ensures M == WriteOnce(old(M), hash(a.data), a)
      ensures files == if added then old(files)[FileName(a, hash(a.data)) := a.data] else old(files)
    {
      var sig := hash(a.data);
      if sig in M {
        return false;
      }
      M := M[sig := a];
      files := files[FileName(a, sig) := a.data];
      added := true;
    }

    /** AddDescription: writes the description next to the blob's file unless a file of
        that name exists already. */
    method AddDescription(data: seq<byte>, desc: seq<byte>, typ: string)
      modifies this
      ensures files == WriteOnce(old(files), DescName(hash(data), typ), desc) && M == old(M)
    {
      var name := DescName(hash(data), typ);
      if name !in files {
        files := files[name := desc];
      }
    }
  }

  /** Adding the same data twice stores it once, under its digest, with the first
      artifact given. */
  lemma AddTwice(m: map<Sig, Artifact>, s: Sig, a: Artifact, b: Artifact)
    ensures WriteOnce(WriteOnce(m, s, a), s, b) == WriteOnce(m, s, a)
    ensures s !in m ==> WriteOnce(WriteOnce(m, s, a), s, b)[s] == a
  {
  }
}
