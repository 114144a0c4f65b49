/**
 * Where CreateAssetFile writes (src/server/database.cpp): the file name of an asset is appended to
 * the path of the auction's ASSET directory and opened as it is, so a name with ".." in it may lead
 * to another file. Here the directory tree is a map from paths, and opening follows them.
 */
module Paths {
  import opened Common
  import opened Text

  type Path = seq<string>

  datatype Node = Dir | File(content: string)

  type Tree = map<Path, Node>

  // ----- Names -----

  /** The components between slashes. */
  function Split(name: string): (r: seq<string>)
    ensures r != []
  {
    if name == "" then [""]
    else
      var rest := Split(name[1..]);
      if name[0] == '/' then [""] + rest else [[name[0]] + rest[0]] + rest[1..]
  }

  /** c_str: what the system calls see of a string. */
  function Cut(name: string): string {
    if name == "" || name[0] == '\0' then "" else [name[0]] + Cut(name[1..])
  }

  predicate IsName(c: string) { c != "" && c != "." && c != ".." }

  predicate Stays(c: string) { c == "" || c == "." }

  function Last(path: seq<string>): string
    requires path != []
  {
    path[|path| - 1]
  }

  /** The path goes above the directory that is `depth` levels over where it stands. */
  predicate Climbs(path: seq<string>, depth: nat) {
    if path == [] then false
    else if Stays(path[0]) then Climbs(path[1..], depth)
    else if path[0] == ".." then depth == 0 || Climbs(path[1..], depth - 1)
    else Climbs(path[1..], depth + 1)
  }

  /** The name has no NUL, and either ends in no file name or never goes above ASSET. */
  predicate Contained(fname: string) {
    '\0' !in fname && (IsName(Last(Split(fname))) ==> !Climbs(Split(fname), 0))
  }

  /** A file name, with nothing before it but components that stay where they are. */
  predicate PlainPath(path: seq<string>)
    requires path != []
  {
    if |path| == 1 then IsName(path[0]) else Stays(path[0]) && PlainPath(path[1..])
  }

  /** CreateAssetFile can open ASSET/<fname> in a new auction directory. */
  predicate AssetNameOk(fname: string) { PlainPath(Split(fname)) }

  // ----- Following a path -----

  function Parent(p: Path): Path { if p == [] then [] else p[..|p| - 1] }

  function Move(at: Path, c: string): Path {
    if Stays(c) then at else if c == ".." then Parent(at) else at + [c]
  }

  predicate IsDir(t: Tree, p: Path) { p in t && t[p].Dir? }

  /** The file that open(O_CREAT | O_TRUNC) gives for the path, standing in directory `at`. */
  function Resolve(t: Tree, at: Path, path: seq<string>): Option<Path>
    requires path != []
    decreases |path|
  {
    if |path| == 1 then
      if IsName(path[0]) && !IsDir(t, at + [path[0]]) then Some(at + [path[0]]) else None
    else if IsDir(t, Move(at, path[0])) then Resolve(t, Move(at, path[0]), path[1..])
    else None
  }

  /** ASDIR/AUCTIONS/<aid>, below the server's working directory. */
  function AuctionDir(home: Path, a: nat): Path { home + ["ASDIR", "AUCTIONS", Pad(a, 3)] }

  function AssetDir(home: Path, a: nat): Path { AuctionDir(home, a) + ["ASSET"] }

  function EndFile(a: nat): string { "END_" + Pad(a, 3) + ".txt" }

  function EndPath(home: Path, a: nat): Path { AuctionDir(home, a) + [EndFile(a)] }

  /** CreateAssetFile: None when the file cannot be opened. */
  function CreateAsset(t: Tree, home: Path, a: nat, fname: string, data: string): Option<Tree> {
    match Resolve(t, AssetDir(home, a), Split(Cut(fname)))
    case None => None
    case Some(p) => Some(t[p := File(data)])
  }

  /** The directory and all above it are there. */
  ghost predicate HasDirs(t: Tree, base: Path) {
    forall k :: 0 <= k <= |base| ==> IsDir(t, base[..k])
  }

  ghost predicate IsEmpty(t: Tree, base: Path) { forall c :: base + [c] !in t }

  // ----- Contained names -----

  lemma {:induction false} CutWhole(s: string)
    ensures Cut(s) == s <==> '\0' !in s
  {
    if s != "" && s[0] != '\0' {
      CutWhole(s[1..]);
      assert s == [s[0]] + s[1..];
    }
  }

  lemma {:induction false} CutAt(v: string, w: string)
    requires '\0' !in v
    ensures Cut(v + (['\0'] + w)) == v
  {
    var s := v + (['\0'] + w);
    if v != "" {
      assert s[1..] == v[1..] + (['\0'] + w);
      CutAt(v[1..], w);
      assert [v[0]] + v[1..] == v;
    }
  }

  lemma {:induction false} NeedsAName(t: Tree, at: Path, path: seq<string>)
    requires path != [] && !IsName(Last(path))
    ensures Resolve(t, at, path) == None
    decreases |path|
  {
    if |path| > 1 { NeedsAName(t, Move(at, path[0]), path[1..]); }
  }

  lemma {:induction false} PlainEnds(path: seq<string>)
    requires path != [] && PlainPath(path)
    ensures IsName(Last(path)) && !Climbs(path, 0)
  {
    if |path| > 1 { PlainEnds(path[1..]); }
  }

  lemma {:induction false} FreshResolve(t: Tree, base: Path, path: seq<string>)
    requires path != [] && IsDir(t, base) && IsEmpty(t, base)
    requires IsName(Last(path)) ==> !Climbs(path, 0)
    ensures Resolve(t, base, path) == if PlainPath(path) then Some(base + [Last(path)]) else None
    decreases |path|
  {
    if !IsName(Last(path)) {
      NeedsAName(t, base, path);
      if PlainPath(path) { PlainEnds(path); }
    } else if |path| > 1 && Stays(path[0]) {
      FreshResolve(t, base, path[1..]);
    }
  }

  /**
   * What Store says of the asset holds of the tree: in a new auction directory a contained name is
   * opened exactly when AssetNameOk, and then one file in ASSET is all that changes.
   */
  lemma ContainedAsset(t: Tree, home: Path, a: nat, fname: string, data: string)
    requires Contained(fname)
    requires IsDir(t, AssetDir(home, a)) && IsEmpty(t, AssetDir(home, a))
    ensures CreateAsset(t, home, a, fname, data) ==
            if AssetNameOk(fname) then Some(t[AssetDir(home, a) + [Last(Split(fname))] := File(data)]) else None
  {
    CutWhole(fname);
    FreshResolve(t, AssetDir(home, a), Split(fname));
  }

  // ----- Exactly when a name stays in ASSET -----

  /** Where the path leads if every directory on it is there. */
  function Target(at: Path, path: seq<string>): Path
    decreases |path|
  {
    if path == [] then at else Target(Move(at, path[0]), path[1..])
  }

  /** The directories the path goes through. */
  function Passed(at: Path, path: seq<string>): set<Path>
    requires path != []
    decreases |path|
  {
    if |path| == 1 then {} else {Move(at, path[0])} + Passed(Move(at, path[0]), path[1..])
  }

  /** All there is outside base stays as it is, whatever the tree and the data. */
  ghost predicate Spares(base: Path, path: seq<string>)
    requires path != []
  {
    forall t: Tree, p :: HasDirs(t, base) && Resolve(t, base, path) == Some(p) ==> base <= p
  }

  lemma {:induction false} ResolvesToTarget(t: Tree, at: Path, path: seq<string>)
    requires path != [] && Resolve(t, at, path).Some?
    ensures Resolve(t, at, path).value == Target(at, path) && IsName(Last(path))
    ensures !IsDir(t, Target(at, path)) && forall d <- Passed(at, path) :: IsDir(t, d)
    decreases |path|
  {
    if |path| == 1 {
      assert Target(at, path) == Target(Move(at, path[0]), []);
    } else {
      ResolvesToTarget(t, Move(at, path[0]), path[1..]);
    }
  }

  lemma {:induction false} Reaches(t: Tree, at: Path, path: seq<string>)
    requires path != [] && IsName(Last(path)) && !IsDir(t, Target(at, path))
    requires forall d <- Passed(at, path) :: IsDir(t, d)
    ensures Resolve(t, at, path) == Some(Target(at, path))
    decreases |path|
  {
    if |path| == 1 {
      assert Target(at, path) == Target(Move(at, path[0]), []);
    } else {
      assert Move(at, path[0]) in Passed(at, path);
      Reaches(t, Move(at, path[0]), path[1..]);
    }
  }

  lemma AllAbove(t: Tree, base: Path, p: Path)
    requires HasDirs(t, base) && p <= base
    ensures IsDir(t, p)
  {
    assert p == base[..|p|];
  }

  /**
   * The exact condition, which can be read off the name: it ends in no file name, or leads below
   * ASSET, or to a directory above it or one that it passes through.
   */
  lemma StaysExactly(base: Path, path: seq<string>)
    requires path != []
    ensures Spares(base, path) <==>
            (IsName(Last(path)) ==>
               var p := Target(base, path); base <= p || p <= base || p in Passed(base, path))
  {
    var p := Target(base, path);
    if IsName(Last(path)) && !(base <= p) && !(p <= base) && p !in Passed(base, path) {
      var above := set k | 0 <= k <= |base| :: base[..k];
      var t: Tree := map d | d in above + Passed(base, path) :: Dir;
      assert p !in above;
      Reaches(t, base, path);
      assert HasDirs(t, base);
    }
    forall t: Tree, q | HasDirs(t, base) && Resolve(t, base, path) == Some(q)
      ensures q == p && IsName(Last(path)) && !(p <= base) && p !in Passed(base, path)
    {
      ResolvesToTarget(t, base, path);
      if q <= base { AllAbove(t, base, q); }
    }
  }

  /** Contained names stay, wherever the server runs and whatever the auction. */
  lemma {:induction false} NoClimbing(base: Path, below: Path, path: seq<string>)
    requires !Climbs(path, |below|)
    ensures base <= Target(base + below, path)
    decreases |path|
  {
    if path != [] {
      var c := path[0];
      if Stays(c) {
        NoClimbing(base, below, path[1..]);
      } else if c == ".." {
        assert Parent(base + below) == base + below[..|below| - 1];
        NoClimbing(base, below[..|below| - 1], path[1..]);
      } else {
        assert base + below + [c] == base + (below + [c]);
        NoClimbing(base, below + [c], path[1..]);
      }
    }
  }

  lemma ContainedSpares(base: Path, fname: string)
    requires Contained(fname)
    ensures Spares(base, Split(Cut(fname)))
  {
    CutWhole(fname);
    var path := Split(fname);
    if IsName(Last(path)) {
      assert base + [] == base;
      NoClimbing(base, [], path);
    }
    StaysExactly(base, path);
  }

  // ----- A name that leads out -----

  lemma {:induction false} SplitAt(c: string, rest: string)
    requires '/' !in c
    ensures Split(c + (['/'] + rest)) == [c] + Split(rest)
  {
    var s := c + (['/'] + rest);
    if c == "" {
      assert s == ['/'] + rest && s[1..] == rest;
    } else {
      assert s[1..] == c[1..] + (['/'] + rest);
      SplitAt(c[1..], rest);
      assert [s[0]] + c[1..] == c;
    }
  }

  lemma {:induction false} SplitLast(c: string)
    requires '/' !in c
    ensures Split(c) == [c]
  {
    if c != "" {
      SplitLast(c[1..]);
      assert [c[0]] + c[1..] == c;
    }
  }

  /** Up twice, down twice. */
  function Sideways(id: string, file: string): string {
    ".." + (['/'] + (".." + (['/'] + (id + (['/'] + file)))))
  }

  /** A plain file name is contained, and can be opened. */
  lemma FlatName(fname: string)
    requires '/' !in fname && '\0' !in fname && IsName(fname)
    ensures Contained(fname) && AssetNameOk(fname)
  {
    SplitLast(fname);
  }

  /** The name that leads from any auction's ASSET to the END of auction b. */
  function EndName(b: nat): string { Sideways(Pad(b, 3), EndFile(b)) }

  lemma SplitSideways(up: string, id: string, file: string)
    requires '/' !in up && '/' !in id && '/' !in file
    ensures Split(up + (['/'] + (up + (['/'] + (id + (['/'] + file)))))) == [up, up, id, file]
  {
    SplitLast(file);
    SplitAt(id, file);
    SplitAt(up, id + (['/'] + file));
    SplitAt(up, up + (['/'] + (id + (['/'] + file))));
  }

  lemma IdIsName(a: nat)
    ensures IsName(Pad(a, 3)) && '/' !in Pad(a, 3) && '\0' !in Pad(a, 3)
    ensures IsName(EndFile(a)) && '/' !in EndFile(a) && '\0' !in EndFile(a)
  {
    var id := Pad(a, 3);
    assert id[0] in id && IsDigit(id[0]);
  }

  lemma EndNameSplits(b: nat)
    ensures Split(EndName(b)) == ["..", "..", Pad(b, 3), EndFile(b)]
    ensures Cut(EndName(b)) == EndName(b) && !Contained(EndName(b))
  {
    var up, id, file := "..", Pad(b, 3), EndFile(b);
    IdIsName(b);
    assert Split(EndName(b)) == [up, up, id, file] by { SplitSideways(up, id, file); }
    assert Cut(EndName(b)) == EndName(b) by {
      assert '\0' !in Sideways(id, file);
      CutWhole(EndName(b));
    }
  }

  lemma GoesSideways(t: Tree, top: Path, a: string, dir: string, id: string, file: string)
    requires IsDir(t, top) && IsDir(t, top + [a]) && IsDir(t, top + [id])
    requires IsName(id) && IsName(file) && !IsDir(t, top + [id, file])
    ensures Resolve(t, top + [a, dir], ["..", "..", id, file]) == Some(top + [id, file])
  {
    var path := ["..", "..", id, file];
    assert Parent(top + [a, dir]) == top + [a] && Parent(top + [a]) == top;
    assert path[1..] == ["..", id, file] && path[1..][1..] == [id, file] && [id, file][1..] == [file];
    assert Resolve(t, top, [id, file]) == Resolve(t, top + [id], [file]);
    assert top + [id] + [file] == top + [id, file];
    assert Resolve(t, top + [a], ["..", id, file]) == Resolve(t, top, [id, file]);
  }

  /** Under that name the asset of auction a becomes the END of auction b, whatever END was. */
  lemma EndOverwritten(t: Tree, home: Path, a: nat, b: nat, data: string)
    requires HasDirs(t, AssetDir(home, a)) && IsDir(t, AuctionDir(home, b)) && !IsDir(t, EndPath(home, b))
    ensures CreateAsset(t, home, a, EndName(b), data) == Some(t[EndPath(home, b) := File(data)])
  {
    EndNameSplits(b);
    IdIsName(b);
    var base, top := AssetDir(home, a), home + ["ASDIR", "AUCTIONS"];
    assert base == top + [Pad(a, 3), "ASSET"];
    assert base[..|base| - 1] == top + [Pad(a, 3)] && base[..|base| - 2] == top;
    assert AuctionDir(home, b) == top + [Pad(b, 3)] && EndPath(home, b) == top + [Pad(b, 3), EndFile(b)];
    GoesSideways(t, top, Pad(a, 3), "ASSET", Pad(b, 3), EndFile(b));
  }
}
