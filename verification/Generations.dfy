/**
 * Configuration generations: a set of files is named by a digest of its
 * framing, and staged as a directory that is renamed into place at the end.
 */
module Generations {
  import opened Wrappers
  import opened StringOrder
  import opened Text

  type Files = map<string, string>

  /** A path below the directory of a generation, as its parts. */
  type Path = seq<string>

  /** A directory: what is written at each path. */
  type Tree = map<Path, string>

  const NUL: char := '\0'

  datatype StageError = UnsafePath | WriteFailed

  /*** Names ***/

  function Kept(pieces: seq<string>): Path {
    if pieces == [] then []
    else (if pieces[0] == "" || pieces[0] == "." then [] else [pieces[0]]) + Kept(pieces[1..])
  }

  /** The parts of a relative POSIX path: empty pieces and single dots are dropped. */
  function Parts(name: string): Path {
    Kept(Split(name, '/'))
  }

  predicate Safe(name: string) {
    !("/" <= name) && ".." !in Parts(name) && Parts(name) != []
  }

  /*** Where a name leads ***/

  /** One step from a directory: nothing and a dot stay there, two dots go up. */
  function Stepped(at: Path, piece: string): Path {
    if piece == "" || piece == "." then at
    else if piece == ".." then (if at == [] then [] else at[..|at| - 1])
    else at + [piece]
  }

  function Walked(at: Path, pieces: seq<string>): Path
    decreases |pieces|
  {
    if pieces == [] then at else Walked(Stepped(at, pieces[0]), pieces[1..])
  }

  lemma {:induction false} WalkedDown(at: Path, pieces: seq<string>)
    requires ".." !in pieces
    ensures Walked(at, pieces) == at + Kept(pieces)
    decreases |pieces|
  {
    if pieces != [] {
      WalkedDown(Stepped(at, pieces[0]), pieces[1..]);
      Associates(at, [pieces[0]], Kept(pieces[1..]));
    }
  }

  lemma {:induction false} KeptExactly(pieces: seq<string>, piece: string)
    ensures piece in Kept(pieces) <==> piece in pieces && piece != "" && piece != "."
  {
    if pieces != [] {
      KeptExactly(pieces[1..], piece);
      assert pieces == [pieces[0]] + pieces[1..];
    }
  }

  /** An accepted name, followed step by step from any directory, leads to its parts below that directory. */
  lemma SafeStaysBelow(root: Path, name: string)
    requires Safe(name)
    ensures Walked(root, Split(name, '/')) == root + Parts(name) && Below(root, Walked(root, Split(name, '/')))
  {
    hide Split;
    KeptExactly(Split(name, '/'), "..");
    WalkedDown(root, Split(name, '/'));
  }

  /** A name is refused exactly if it is absolute, has two dots for a piece, or has no piece that leads anywhere. */
  lemma RefusedExactly(name: string)
    ensures !Safe(name) <==>
            "/" <= name || ".." in Split(name, '/') || forall piece :: piece in Split(name, '/') ==> piece == "" || piece == "."
  {
    hide Split;
    var pieces := Split(name, '/');
    KeptExactly(pieces, "..");
    if Parts(name) == [] {
      forall piece | piece in pieces
        ensures piece == "" || piece == "."
      {
        KeptExactly(pieces, piece);
      }
    } else {
      KeptExactly(pieces, Parts(name)[0]);
    }
  }

  /*** The framing ***/

  function Frame(name: string, contents: string): string {
    name + [NUL] + contents + [NUL]
  }

  function FrameAll(names: seq<string>, files: Files): string
    requires forall name :: name in names ==> name in files
  {
    if names == [] then "" else Frame(names[0], files[names[0]]) + FrameAll(names[1..], files)
  }

  function Framing(files: Files): string {
    FrameAll(SortedNames(files.Keys), files)
  }

  /** The text up to the first NUL, and what comes after it. */
  function Field(s: string): Option<(string, string)> {
    if s == "" then None
    else if s[0] == NUL then Some(("", s[1..]))
    else
      match Field(s[1..])
      case None => None
      case Some((field, rest)) => Some(([s[0]] + field, rest))
  }

  lemma {:induction false} FieldShrinks(s: string)
    ensures Field(s).Some? ==> |Field(s).value.1| < |s|
  {
    if s != "" && s[0] != NUL {
      FieldShrinks(s[1..]);
    }
  }

  /** Reads a framing back. */
  function Unframe(s: string): Option<Files>
    decreases |s|
  {
    if s == "" then Some(map[])
    else
      FieldShrinks(s);
      match Field(s)
      case None => None
      case Some((name, rest)) =>
        FieldShrinks(rest);
        match Field(rest)
        case None => None
        case Some((contents, more)) =>
          match Unframe(more)
          case None => None
          case Some(files) => Some(files[name := contents])
  }

  predicate NulFree(files: Files) {
    forall name :: name in files ==> NUL !in name && NUL !in files[name]
  }

  lemma {:induction false} FieldOf(field: string, rest: string)
    requires NUL !in field
    ensures Field(field + [NUL] + rest) == Some((field, rest))
  {
    var s := field + [NUL] + rest;
    if field != "" {
      FieldOf(field[1..], rest);
      assert s[1..] == field[1..] + [NUL] + rest;
      assert [field[0]] + field[1..] == field;
    } else {
      assert s[1..] == rest;
    }
  }

  lemma FramedFirst(name: string, contents: string, rest: string)
    requires NUL !in name && NUL !in contents
    ensures
      Unframe(Frame(name, contents) + rest) ==
        match Unframe(rest) { case None => None case Some(files) => Some(files[name := contents]) }
  {
    var s := Frame(name, contents) + rest;
    assert s == name + [NUL] + (contents + [NUL] + rest);
    FieldOf(name, contents + [NUL] + rest);
    FieldOf(contents, rest);
  }

  lemma {:induction false} FramedNames(names: seq<string>, files: Files)
    requires forall name :: name in names ==> name in files
    requires NulFree(files)
    ensures
      var read := Unframe(FrameAll(names, files));
      && read.Some?
      && (forall name :: name in read.value <==> name in names)
      && (forall name :: name in names ==> read.value[name] == files[name])
  {
    if names != [] {
      hide Unframe, Frame;
      FramedNames(names[1..], files);
      FramedFirst(names[0], files[names[0]], FrameAll(names[1..], files));
    } else {
      NothingFramed();
    }
  }

  lemma NothingFramed()
    ensures Unframe("") == Some(map[])
  {
  }

  lemma {:induction false} FieldIsNulFree(s: string)
    ensures Field(s).Some? ==> NUL !in Field(s).value.0
  {
    if s != "" && s[0] != NUL {
      FieldIsNulFree(s[1..]);
    }
  }

  lemma {:induction false} UnframedIsNulFree(s: string)
    ensures Unframe(s).Some? ==> NulFree(Unframe(s).value)
    decreases |s|
  {
    FieldIsNulFree(s);
    FieldShrinks(s);
    if s != "" && Field(s).Some? {
      var rest := Field(s).value.1;
      FieldIsNulFree(rest);
      FieldShrinks(rest);
      if Field(rest).Some? {
        UnframedIsNulFree(Field(rest).value.1);
      }
    }
  }

  /** A framing can be read back exactly when no name and no contents has a NUL; so it tells such files apart. */
  lemma FramingReadsBack(files: Files)
    ensures Unframe(Framing(files)) == Some(files) <==> NulFree(files)
  {
    hide Unframe, FrameAll;
    UnframedIsNulFree(Framing(files));
    if NulFree(files) {
      FramedNames(SortedNames(files.Keys), files);
      var read := Unframe(Framing(files)).value;
      assert forall name :: name in read <==> name in files;
      assert read == files;
    }
  }

  lemma {:induction false} FrameAllAgree(names: seq<string>, a: Files, b: Files)
    requires forall name :: name in names ==> name in a && name in b && a[name] == b[name]
    ensures FrameAll(names, a) == FrameAll(names, b)
  {
    if names != [] {
      FrameAllAgree(names[1..], a, b);
    }
  }

  /** The framing has the first name, its contents, and then the others in order: names in code point order, each closed by a NUL. */
  lemma FramingInOrder(files: Files, name: string)
    requires FirstName(files.Keys, name)
    ensures Framing(files) == name + [NUL] + files[name] + [NUL] + Framing(files - {name})
    ensures Framing(map[]) == ""
  {
    hide SortedNames;
    var rest := files - {name};
    assert rest.Keys == files.Keys - {name};
    SortedNamesFirst(files.Keys, name);
    var names := SortedNames(rest.Keys);
    assert ([name] + names)[1..] == names;
    FrameAllAgree(names, files, rest);
    NothingToFrame();
  }

  lemma NothingToFrame()
    ensures Framing(map[]) == ""
  {
    var none: Files := map[];
    assert none.Keys == {};
    SortedNamesSize({});
  }

  /** With a NUL in a file's contents two different sets of files can have one framing. */
  lemma NulConfuses()
    ensures
      var one := map["a" := ['x', NUL, 'b', NUL, 'y']];
      var two := map["a" := "x", "b" := "y"];
      one != two && Framing(one) == Framing(two)
  {
    var one := map["a" := ['x', NUL, 'b', NUL, 'y']];
    var two := map["a" := "x", "b" := "y"];
    assert one["a"] != two["a"];
    FramingOfOne("a", ['x', NUL, 'b', NUL, 'y']);
    FramingOfTwo("a", "x", "b", "y");
  }

  lemma FramingOfOne(name: string, contents: string)
    ensures Framing(map[name := contents]) == name + [NUL] + contents + [NUL]
  {
    hide Framing;
    var files := map[name := contents];
    FramingInOrder(files, name);
    assert files - {name} == map[];
    NothingAdded(name + [NUL] + contents + [NUL]);
  }

  lemma FramingOfTwo(a: string, left: string, b: string, right: string)
    requires Precedes(a, b)
    ensures Framing(map[a := left, b := right]) == a + [NUL] + left + [NUL] + (b + [NUL] + right + [NUL])
  {
    hide Framing;
    var files := map[a := left, b := right];
    PrecedesIsTotal(a, b);
    FramingInOrder(files, a);
    assert files - {a} == map[b := right];
    FramingOfOne(b, right);
  }

  /** The name of a generation; `None` stands for the error that an unsafe name raises. */
  function GenerationId(digest: string -> string, files: Files): Option<string> {
    if forall name :: name in files ==> Safe(name) then Some(digest(Framing(files))) else None
  }

  lemma FramedNext(done: string, name: string, contents: string, rest: string)
    ensures done + (Frame(name, contents) + rest) == done + name + [NUL] + contents + [NUL] + rest
  {
  }

  method ComputeGenerationId(digest: string -> string, files: Files) returns (id: Option<string>)
    ensures id == GenerationId(digest, files)
  {
    hide Safe, Precedes, SortedNames, Frame;
    var names := SortedNames(files.Keys);
    var framed := "";
    for k := 0 to |names|
      invariant framed + FrameAll(names[k..], files) == Framing(files)
      invariant forall i :: 0 <= i < k ==> Safe(names[i])
    {
      if !Safe(names[k]) {
        assert names[k] in files;
        return None;
      }
      assert names[k..][1..] == names[k + 1..];
      FramedNext(framed, names[k], files[names[k]], FrameAll(names[k + 1..], files));
      framed := framed + names[k] + [NUL];
      framed := framed + files[names[k]] + [NUL];
    }
    assert forall name :: name in files ==> name in names;
    assert names[|names|..] == [] && framed + "" == framed;
    return Some(digest(framed));
  }

  /*** Writing a directory ***/

  predicate Below(p: Path, q: Path) {
    p < q
  }

  /** A file can be written unless a directory is in its place, or a file where it needs a directory. */
  predicate Writable(tree: Tree, path: Path) {
    && (forall part :: part in path ==> NUL !in part)
    && (forall p :: p in tree ==> !Below(p, path) && !Below(path, p))
  }

  /** Writes the files in turn; `fault` counts the system calls that succeed before one fails. */
  function WriteAll(names: seq<string>, files: Files, tree: Tree, fault: nat): Result<Tree, StageError>
    requires forall name :: name in names ==> name in files
    decreases |names|
  {
    if names == [] then (if fault == 0 then Err(WriteFailed) else Ok(tree))
    else if !Safe(names[0]) then Err(UnsafePath)
    else if fault == 0 || !Writable(tree, Parts(names[0])) then Err(WriteFailed)
    else WriteAll(names[1..], files, tree[Parts(names[0]) := files[names[0]]], fault - 1)
  }

  /** A new directory for these files; making it and renaming it can fail too. */
  function Build(files: Files, fault: nat): Result<Tree, StageError> {
    if fault == 0 then Err(WriteFailed) else WriteAll(SortedNames(files.Keys), files, map[], fault - 1)
  }

  /** No call fails for a reason outside the files themselves. */
  predicate Faultless(files: Files, fault: nat) {
    fault > |files| + 1
  }

  /*** What a staged directory holds ***/

  /** Some file of this path, the last in order, is what the tree holds there. */
  lemma {:induction false} WrittenFrom(names: seq<string>, files: Files, tree: Tree, fault: nat, path: Path)
    requires forall name :: name in names ==> name in files
    requires WriteAll(names, files, tree, fault).Ok?
    ensures
      var post := WriteAll(names, files, tree, fault).value;
      && (path in post <==> path in tree || exists name :: name in names && Parts(name) == path)
      && (path in post ==>
            || (exists name :: name in names && Parts(name) == path && post[path] == files[name])
            || (path in tree && post[path] == tree[path] && forall name :: name in names ==> Parts(name) != path))
    decreases |names|
  {
    hide Parts, Safe, Writable;
    if names != [] {
      WrittenFrom(names[1..], files, tree[Parts(names[0]) := files[names[0]]], fault - 1, path);
    }
  }

  /** The directory has exactly the files given: a file at each name's path, with its contents, and no other. */
  predicate Holds(tree: Tree, files: Files) {
    && (forall path :: path in tree ==> exists name :: name in files && Parts(name) == path)
    && (forall name :: name in files ==> Parts(name) in tree && tree[Parts(name)] == files[name])
  }

  /** Names that lead to one path, such as `a` and `./a`, have one contents. */
  predicate Consistent(files: Files) {
    forall m, n :: m in files && n in files && Parts(m) == Parts(n) ==> files[m] == files[n]
  }

  /** A staged directory holds exactly the given files if and only if no two names fight over a path. */
  lemma BuiltExactly(files: Files, fault: nat)
    requires Build(files, fault).Ok?
    ensures Holds(Build(files, fault).value, files) <==> Consistent(files)
  {
    hide Parts, WriteAll, SortedNames;
    var tree := Build(files, fault).value;
    var names := SortedNames(files.Keys);
    forall path
      ensures path in tree <==> exists name :: name in files && Parts(name) == path
      ensures path in tree ==> exists name :: name in files && Parts(name) == path && tree[path] == files[name]
    {
      WrittenFrom(names, files, map[], fault - 1, path);
    }
  }

  lemma PartsOfA()
    ensures Parts("a") == ["a"] && Parts("./a") == ["a"]
  {
    SplitUncut("a", '/');
    assert "./a"[1..] == "/a" && "/a"[1..] == "a";
    assert Split("/a", '/') == ["", "a"];
    var rest := Split("/a", '/');
    assert rest[0] == "" && rest[1..] == ["a"] && ['.'] + "" == ".";
    assert Split("./a", '/') == [['.'] + rest[0]] + rest[1..] == [".", "a"];
    assert ["a"][1..] == [] && [".", "a"][1..] == ["a"];
  }

  /** Two names of one path fight over it: the directory is staged, and one of the files is not in it. */
  lemma OnePathTwoNames()
    ensures
      var files := map["./a" := "x", "a" := "y"];
      Build(files, 4).Ok? && !Consistent(files) && !Holds(Build(files, 4).value, files)
  {
    var files := map["./a" := "x", "a" := "y"];
    hide Parts, Build, Split;
    PartsOfA();
    assert files.Keys == {"./a", "a"};
    assert "./a" != "a" && |files| == 2;
    assert files["./a"] != files["a"];
    assert "a"[0] != '/' && "./a"[0] != '/' && |".."| != |"a"|;
    assert ".." !in ["a"];
    assert Safe("a") && Safe("./a");
    var path := ["a"];
    assert !Below(path, path);
    assert Compatible(files);
    BuildsCompatible(files, 4);
    BuiltExactly(files, 4);
  }

  /** Every name is safe and free of NUL, and no name needs a directory where another is a file. */
  predicate Compatible(files: Files) {
    && (forall name :: name in files ==> Safe(name) && forall part :: part in Parts(name) ==> NUL !in part)
    && (forall m, n :: m in files && n in files ==> !Below(Parts(m), Parts(n)))
  }

  lemma {:induction false} WritesThrough(names: seq<string>, files: Files, tree: Tree, fault: nat)
    requires forall name :: name in names ==> name in files
    requires Compatible(files) && fault > |names|
    requires forall path :: path in tree ==> exists name :: name in files && Parts(name) == path
    ensures WriteAll(names, files, tree, fault).Ok?
    decreases |names|
  {
    hide Parts, Safe, Below;
    if names != [] {
      WritesThrough(names[1..], files, tree[Parts(names[0]) := files[names[0]]], fault - 1);
    }
  }

  lemma {:induction false} StopsOn(names: seq<string>, files: Files, tree: Tree, fault: nat)
    requires forall name :: name in names ==> name in files
    requires WriteAll(names, files, tree, fault).Ok?
    requires forall p, q :: p in tree && q in tree ==> !Below(p, q)
    ensures forall name :: name in names ==> Safe(name) && (forall part :: part in Parts(name) ==> NUL !in part)
    ensures
      var post := WriteAll(names, files, tree, fault).value;
      forall p, q :: p in post && q in post ==> !Below(p, q)
    decreases |names|
  {
    hide Parts, Safe;
    if names != [] {
      StopsOn(names[1..], files, tree[Parts(names[0]) := files[names[0]]], fault - 1);
    }
  }

  /** Without a fault from outside, staging succeeds exactly on compatible files. */
  lemma BuildsCompatible(files: Files, fault: nat)
    requires Faultless(files, fault)
    ensures Build(files, fault).Ok? <==> Compatible(files)
  {
    hide Parts, WriteAll, SortedNames, Safe, Below;
    var names := SortedNames(files.Keys);
    SortedNamesSize(files.Keys);
    if Compatible(files) {
      WritesThrough(names, files, map[], fault - 1);
    }
    if Build(files, fault).Ok? {
      StopsOn(names, files, map[], fault - 1);
      forall m | m in files
        ensures Parts(m) in Build(files, fault).value
      {
        WrittenFrom(names, files, map[], fault - 1, Parts(m));
      }
    }
  }

  /*** The store ***/

  /** The directories below `generations`, the `ACTIVE` manifest, and the `failed` directory. */
  datatype Store = Store(generations: map<string, Tree>, active: Option<string>, failed: map<string, string>)

  const EMPTY_STORE := Store(map[], None, map[])

  function Stage(st: Store, id: string, files: Files, fault: nat): Result<Store, StageError> {
    if id in st.generations then Ok(st)
    else
      match Build(files, fault)
      case Err(e) => Err(e)
      case Ok(tree) => Ok(st.(generations := st.generations[id := tree]))
  }

  class GenerationStore {
    var generations: map<string, Tree>
    var active: Option<string>
    var failed: map<string, string>

    constructor ()
      ensures State() == EMPTY_STORE
    {
      generations, active, failed := map[], None, map[];
    }

    function State(): Store
      reads this
    {
      Store(generations, active, failed)
    }

    /** A stage that fails part way leaves the store as it was. */
    method StageFiles(id: string, files: Files, fault: nat) returns (r: Result<bool, StageError>)
      modifies this`generations
      ensures
        match Stage(old(State()), id, files, fault)
        case Err(e) => r == Err(e) && State() == old(State())
        case Ok(post) => r == Ok(id !in old(generations)) && State() == post
    {
      hide Safe, Parts, SortedNames, Writable;
      if id in generations {
        return Ok(false);
      }
      if fault == 0 {
        return Err(WriteFailed);
      }
      var temporary: Tree := map[];
      var names := SortedNames(files.Keys);
      for k := 0 to |names|
        invariant k <= fault - 1
        invariant WriteAll(names[k..], files, temporary, fault - 1 - k) == Build(files, fault)
        invariant State() == old(State())
      {
        assert names[k..][0] == names[k] && names[k..][1..] == names[k + 1..];
        if !Safe(names[k]) {
          return Err(UnsafePath);
        }
        if fault - 1 == k || !Writable(temporary, Parts(names[k])) {
          return Err(WriteFailed);
        }
        temporary := temporary[Parts(names[k]) := files[names[k]]];
      }
      if fault - 1 == |names| {
        return Err(WriteFailed);
      }
      generations := generations[id := temporary];
      return Ok(true);
    }

    method Activate(id: string) returns (ok: bool)
      modifies this`active
      ensures ok == (id in generations)
      ensures active == if ok then Some(id) else old(active)
    {
      if id !in generations {
        return false;
      }
      active := Some(id);
      return true;
    }

    method ClearActive()
      modifies this`active
      ensures active == None
    {
      active := None;
    }

    method RecordFailure(id: string, diagnostic: string)
      modifies this`failed
      ensures failed == old(failed)[id := diagnostic]
    {
      failed := failed[id := diagnostic];
    }
  }
}
