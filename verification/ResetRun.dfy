/**
 The generator's driver: `findTargets` collects the marked structs of a package, `run` renders one file for every
 package that has some. Running it again over its own output writes the same files.
 */
module ResetRun {
  import opened Wrappers
  import opened GoTypes
  import opened ResetGen
  import opened ResetText
  import opened ResetIdempotence

  // Syntax, as far as `findTargets` looks at it.

  /** `marked`: the spec's own comment holds the marker. `isNamed` is false for an alias. */
  datatype TypeSpec = TypeSpec(name: string, isStruct: bool, isNamed: bool, marked: bool)

  /** `marked`: the comment before the keyword holds the marker. */
  datatype GenDecl = GenDecl(isType: bool, marked: bool, specs: seq<TypeSpec>)

  /**
   `generated`: the file starts with the comment that marks generated code. `resets`: the types, by qualified name, for
   which it declares a method `Reset`.
   */
  datatype GoFile = GoFile(name: string, generated: bool, decls: seq<GenDecl>, resets: set<string>)

  datatype Package = Package(path: string, name: string, files: seq<GoFile>)

  function QualName(path: string, name: string): string {
    path + "." + name
  }

  predicate Accepted(d: GenDecl, spec: TypeSpec) {
    d.isType && spec.isStruct && (spec.marked || d.marked) && spec.isNamed
  }

  function SpecTargets(path: string, d: GenDecl, specs: seq<TypeSpec>): seq<Target> {
    if |specs| == 0 then []
    else
      var last := |specs| - 1;
      SpecTargets(path, d, specs[..last])
        + if Accepted(d, specs[last]) then [Target(specs[last].name, QualName(path, specs[last].name))] else []
  }

  function DeclTargets(path: string, decls: seq<GenDecl>): seq<Target> {
    if |decls| == 0 then []
    else
      var last := |decls| - 1;
      DeclTargets(path, decls[..last]) + SpecTargets(path, decls[last], decls[last].specs)
  }

  function FileTargets(path: string, files: seq<GoFile>): seq<Target> {
    if |files| == 0 then []
    else
      var last := |files| - 1;
      FileTargets(path, files[..last]) + OwnTargets(path, files[last])
  }

  /** The targets of one file: none when it is generated. */
  function OwnTargets(path: string, file: GoFile): seq<Target> {
    if file.generated then [] else DeclTargets(path, file.decls)
  }

  // Sorting by name, as Go compares strings.

  predicate Leq(a: string, b: string) {
    |a| == 0 || (|b| > 0 && (a[0] < b[0] || (a[0] == b[0] && Leq(a[1..], b[1..]))))
  }

  predicate FirstDifference(a: string, b: string, i: nat) {
    i < |a| && i < |b| && a[..i] == b[..i] && a[i] < b[i]
  }

  /** One string is the beginning of the other, or has the smaller character where they first differ. */
  lemma {:induction false} LeqMeans(a: string, b: string)
    ensures Leq(a, b) <==> a <= b || exists i: nat :: FirstDifference(a, b, i)
  {
    if |a| > 0 && |b| > 0 {
      LeqMeans(a[1..], b[1..]);
      assert a == [a[0]] + a[1..] && b == [b[0]] + b[1..];
      if a[0] < b[0] { assert FirstDifference(a, b, 0); }
      if i: nat :| FirstDifference(a, b, i) {
        if i > 0 {
          assert a[0] == a[..i][0] == b[..i][0] == b[0];
          assert a[1..][..i - 1] == a[..i][1..] == b[..i][1..] == b[1..][..i - 1];
          assert FirstDifference(a[1..], b[1..], i - 1);
        }
      }
      if i: nat :| a[0] == b[0] && FirstDifference(a[1..], b[1..], i) {
        assert a[..i + 1] == [a[0]] + a[1..][..i] && b[..i + 1] == [b[0]] + b[1..][..i];
        assert FirstDifference(a, b, i + 1);
      }
      if a[0] == b[0] { assert a <= b <==> a[1..] <= b[1..]; }
    }
  }

  lemma {:induction false} LeqTotal(a: string, b: string)
    ensures Leq(a, b) || Leq(b, a)
  {
    if |a| > 0 && |b| > 0 { LeqTotal(a[1..], b[1..]); }
  }

  lemma {:induction false} LeqTransitive(a: string, b: string, c: string)
    requires Leq(a, b) && Leq(b, c)
    ensures Leq(a, c)
  {
    if |a| > 0 && a[0] == b[0] == c[0] { LeqTransitive(a[1..], b[1..], c[1..]); }
  }

  lemma {:induction false} LeqAntisymmetric(a: string, b: string)
    requires Leq(a, b) && Leq(b, a)
    ensures a == b
  {
    if |a| > 0 {
      LeqAntisymmetric(a[1..], b[1..]);
      assert a == [a[0]] + a[1..] && b == [b[0]] + b[1..];
    }
  }

  predicate SortedByName(ts: seq<Target>) {
    forall i, j :: 0 <= i < j < |ts| ==> Leq(ts[i].name, ts[j].name)
  }

  function Insert(t: Target, ts: seq<Target>): seq<Target> {
    if |ts| == 0 then [t]
    else if Leq(t.name, ts[0].name) then [t] + ts
    else [ts[0]] + Insert(t, ts[1..])
  }

  /** The library's sort. */
  function Sort(ts: seq<Target>): seq<Target> {
    if |ts| == 0 then [] else Insert(ts[|ts| - 1], Sort(ts[..|ts| - 1]))
  }

  predicate AllFrom(name: string, ts: seq<Target>) {
    forall j :: 0 <= j < |ts| ==> Leq(name, ts[j].name)
  }

  lemma {:induction false} InsertAbove(name: string, t: Target, ts: seq<Target>)
    requires Leq(name, t.name) && AllFrom(name, ts)
    ensures AllFrom(name, Insert(t, ts))
    decreases |ts|
  {
    if |ts| > 0 && !Leq(t.name, ts[0].name) { InsertAbove(name, t, ts[1..]); }
  }

  lemma {:induction false} InsertSorts(t: Target, ts: seq<Target>)
    requires SortedByName(ts)
    ensures SortedByName(Insert(t, ts))
    decreases |ts|
  {
    if |ts| > 0 {
      if Leq(t.name, ts[0].name) {
        forall j | 0 < j < |ts| ensures Leq(t.name, ts[j].name) { LeqTransitive(t.name, ts[0].name, ts[j].name); }
      } else {
        LeqTotal(t.name, ts[0].name);
        InsertSorts(t, ts[1..]);
        InsertAbove(ts[0].name, t, ts[1..]);
      }
    }
  }

  lemma {:induction false} InsertPermutes(t: Target, ts: seq<Target>)
    ensures multiset(Insert(t, ts)) == multiset(ts) + multiset{t}
    decreases |ts|
  {
    if |ts| > 0 {
      assert ts == [ts[0]] + ts[1..];
      if !Leq(t.name, ts[0].name) { InsertPermutes(t, ts[1..]); }
    }
  }

  /** The sort orders by name and neither adds nor drops. */
  lemma {:induction false} SortSorts(ts: seq<Target>)
    ensures SortedByName(Sort(ts)) && multiset(Sort(ts)) == multiset(ts)
    decreases |ts|
  {
    if |ts| > 0 {
      var last := |ts| - 1;
      SortSorts(ts[..last]);
      InsertSorts(ts[last], Sort(ts[..last]));
      InsertPermutes(ts[last], Sort(ts[..last]));
      assert ts == ts[..last] + [ts[last]];
    }
  }

  function Targets(p: Package): seq<Target> {
    Sort(FileTargets(p.path, p.files))
  }

  /** The body of `findTargets`' loop over declarations. */
  method FindInDecl(path: string, d: GenDecl) returns (out: seq<Target>)
    ensures out == SpecTargets(path, d, d.specs)
  {
    out := [];
    if !d.isType {
      NoSpecTargets(path, d, d.specs);
      return;
    }
    for k := 0 to |d.specs|
      invariant out == SpecTargets(path, d, d.specs[..k])
    {
      assert d.specs[..k + 1][..k] == d.specs[..k];
      var spec := d.specs[k];
      if !spec.isStruct { continue; }
      if !spec.marked && !d.marked { continue; }
      if !spec.isNamed { continue; }
      out := out + [Target(spec.name, QualName(path, spec.name))];
    }
    assert d.specs[..|d.specs|] == d.specs;
  }

  /** The body of its loop over files. */
  method FindInFile(path: string, file: GoFile) returns (out: seq<Target>)
    ensures out == if file.generated then [] else DeclTargets(path, file.decls)
  {
    out := [];
    if file.generated { return; }
    for j := 0 to |file.decls|
      invariant out == DeclTargets(path, file.decls[..j])
    {
      assert file.decls[..j + 1][..j] == file.decls[..j];
      var found := FindInDecl(path, file.decls[j]);
      out := out + found;
    }
    assert file.decls[..|file.decls|] == file.decls;
  }

  method FindTargets(p: Package) returns (out: seq<Target>)
    ensures out == Targets(p)
  {
    out := [];
    for i := 0 to |p.files|
      invariant out == FileTargets(p.path, p.files[..i])
    {
      assert p.files[..i + 1][..i] == p.files[..i];
      var found := FindInFile(p.path, p.files[i]);
      out := out + found;
    }
    assert p.files[..|p.files|] == p.files;
    out := Sort(out);
  }

  lemma {:induction false} NoSpecTargets(path: string, d: GenDecl, specs: seq<TypeSpec>)
    requires !d.isType
    ensures SpecTargets(path, d, specs) == []
  {
    if |specs| > 0 { NoSpecTargets(path, d, specs[..|specs| - 1]); }
  }

  // What the result is, whatever the order of files and declarations.


  predicate DeclDeclares(d: GenDecl, specs: seq<TypeSpec>, name: string) {
    exists k :: 0 <= k < |specs| && Accepted(d, specs[k]) && specs[k].name == name
  }

  predicate DeclsDeclare(decls: seq<GenDecl>, name: string) {
    exists j :: 0 <= j < |decls| && DeclDeclares(decls[j], decls[j].specs, name)
  }

  /** A hand-written file declares a marked struct type of this name. */
  predicate FilesDeclare(files: seq<GoFile>, name: string) {
    exists i :: 0 <= i < |files| && FileDeclares(files[i], name)
  }

  predicate FileDeclares(file: GoFile, name: string) {
    !file.generated && DeclsDeclare(file.decls, name)
  }

  lemma SpecsSnoc(d: GenDecl, specs: seq<TypeSpec>, spec: TypeSpec, name: string)
    ensures DeclDeclares(d, specs + [spec], name) <==>
      DeclDeclares(d, specs, name) || (Accepted(d, spec) && spec.name == name)
  {
    var all := specs + [spec];
    assert all[|specs|] == spec && forall k :: 0 <= k < |specs| ==> all[k] == specs[k];
  }

  lemma DeclsSnoc(decls: seq<GenDecl>, d: GenDecl, name: string)
    ensures DeclsDeclare(decls + [d], name) <==> DeclsDeclare(decls, name) || DeclDeclares(d, d.specs, name)
  {
    var all := decls + [d];
    assert all[|decls|] == d && forall k :: 0 <= k < |decls| ==> all[k] == decls[k];
  }

  lemma FilesSnoc(files: seq<GoFile>, file: GoFile, name: string)
    ensures FilesDeclare(files + [file], name) <==> FilesDeclare(files, name) || FileDeclares(file, name)
  {
    var all := files + [file];
    assert all[|files|] == file && forall k :: 0 <= k < |files| ==> all[k] == files[k];
  }

  lemma {:induction false} SpecTargetsMean(path: string, d: GenDecl, specs: seq<TypeSpec>, t: Target)
    ensures t in SpecTargets(path, d, specs) <==> DeclDeclares(d, specs, t.name) && t.qual == QualName(path, t.name)
  {
    if |specs| > 0 {
      var last := |specs| - 1;
      SpecTargetsMean(path, d, specs[..last], t);
      SpecsSnoc(d, specs[..last], specs[last], t.name);
      assert specs == specs[..last] + [specs[last]];
    }
  }

  lemma {:induction false} DeclTargetsMean(path: string, decls: seq<GenDecl>, t: Target)
    ensures t in DeclTargets(path, decls) <==> DeclsDeclare(decls, t.name) && t.qual == QualName(path, t.name)
  {
    if |decls| > 0 {
      var last := |decls| - 1;
      DeclTargetsMean(path, decls[..last], t);
      SpecTargetsMean(path, decls[last], decls[last].specs, t);
      DeclsSnoc(decls[..last], decls[last], t.name);
      assert decls == decls[..last] + [decls[last]];
    }
  }

  lemma LastFileMeans(path: string, file: GoFile, t: Target)
    ensures t in OwnTargets(path, file) <==> FileDeclares(file, t.name) && t.qual == QualName(path, t.name)
  {
    DeclTargetsMean(path, file.decls, t);
  }

  lemma {:induction false} FileTargetsMean(path: string, files: seq<GoFile>, t: Target)
    ensures t in FileTargets(path, files) <==> FilesDeclare(files, t.name) && t.qual == QualName(path, t.name)
  {
    if |files| > 0 {
      var last := |files| - 1;
      FileTargetsMean(path, files[..last], t);
      LastFileMeans(path, files[last], t);
      FilesSnoc(files[..last], files[last], t.name);
      assert files == files[..last] + [files[last]];
      assert FileTargets(path, files) == FileTargets(path, files[..last]) + OwnTargets(path, files[last]);
    }
  }

  /**
   A package of one type: it is a target when it is a struct and no alias, and the marker stands on the type or on the
   declaration around it, in a file written by hand.
   */
  lemma OneTypePackage(path: string, pkg: string, n: string, isStruct: bool, isNamed: bool, onType: bool,
      onDecl: bool, generated: bool)
    ensures var d := GenDecl(true, onDecl, [TypeSpec(n, isStruct, isNamed, onType)]);
      Targets(Package(path, pkg, [GoFile("types.go", generated, [d], {})])) ==
        if !generated && isStruct && isNamed && (onType || onDecl) then [Target(n, path + "." + n)] else []
  {
    var spec := TypeSpec(n, isStruct, isNamed, onType);
    var d := GenDecl(true, onDecl, [spec]);
    var file := GoFile("types.go", generated, [d], {});
    assert [spec][..0] == [] && [d][..0] == [] && [file][..0] == [];
    assert SpecTargets(path, d, []) == [] && DeclTargets(path, []) == [] && FileTargets(path, []) == [];
    var found := if Accepted(d, spec) then [Target(n, QualName(path, n))] else [];
    assert SpecTargets(path, d, [spec]) == [] + found == found;
    assert DeclTargets(path, [d]) == [] + found == found;
    assert FileTargets(path, [file]) == [] + OwnTargets(path, file) == if generated then [] else found;
    assert forall t :: Sort([t]) == [t] by {
      forall t ensures Sort([t]) == [t] { assert [t][..0] == [] && Sort([]) == []; }
    }
  }

  /** A target is exactly a marked struct of a hand-written file. */
  lemma TargetsMean(p: Package, t: Target)
    ensures t in Targets(p) <==> FilesDeclare(p.files, t.name) && t.qual == QualName(p.path, t.name)
  {
    FileTargetsMean(p.path, p.files, t);
    SortSorts(FileTargets(p.path, p.files));
    assert t in Targets(p) <==> t in multiset(Targets(p));
    assert t in FileTargets(p.path, p.files) <==> t in multiset(FileTargets(p.path, p.files));
  }

  /** Go declares no two types of one name in a package. */
  predicate DistinctTargets(ts: seq<Target>) {
    forall i, j :: 0 <= i < j < |ts| ==> ts[i].name != ts[j].name
  }

  predicate StrictlySorted(ts: seq<Target>) {
    SortedByName(ts) && DistinctTargets(ts)
  }

  predicate SameMembers(a: seq<Target>, b: seq<Target>) {
    (forall t :: t in a ==> t in b) && (forall t :: t in b ==> t in a)
  }

  lemma {:induction false} SortedUnique(a: seq<Target>, b: seq<Target>)
    requires StrictlySorted(a) && StrictlySorted(b) && SameMembers(a, b)
    ensures a == b
    decreases |a|
  {
    EmptySame(a, b);
    if |a| > 0 {
      HeadsEqual(a, b);
      TailMembers(a, b);
      TailMembers(b, a);
      SortedUnique(a[1..], b[1..]);
      assert a == [a[0]] + a[1..] && b == [b[0]] + b[1..];
    }
  }

  lemma EmptySame(a: seq<Target>, b: seq<Target>)
    requires SameMembers(a, b)
    ensures |a| > 0 <==> |b| > 0
  {
    if |a| > 0 { assert a[0] in a; }
    if |b| > 0 { assert b[0] in b; }
  }

  lemma HeadsEqual(a: seq<Target>, b: seq<Target>)
    requires StrictlySorted(a) && StrictlySorted(b) && SameMembers(a, b) && |a| > 0 && |b| > 0
    ensures a[0] == b[0]
  {
    assert a[0] in b && b[0] in a;
    var i :| 0 <= i < |b| && b[i] == a[0];
    var j :| 0 <= j < |a| && a[j] == b[0];
    if i > 0 {
      if j > 0 { LeqAntisymmetric(a[0].name, b[0].name); }
    }
  }

  lemma TailMembers(a: seq<Target>, b: seq<Target>)
    requires |a| > 0 && |b| > 0 && a[0] == b[0] && DistinctTargets(a)
    requires forall t :: t in a ==> t in b
    ensures forall t :: t in a[1..] ==> t in b[1..]
  {
    forall t | t in a[1..] ensures t in b[1..] {
      var i :| 0 <= i < |a[1..]| && a[1..][i] == t;
      assert a[i + 1] == t && t in a && t != a[0];
      assert b == [b[0]] + b[1..];
    }
  }

  /** The targets depend on which marked structs the hand-written files declare, not on files or order. */
  lemma TargetsDetermined(p: Package, q: Package)
    requires p.path == q.path && DistinctTargets(Targets(p)) && DistinctTargets(Targets(q))
    requires forall name :: FilesDeclare(p.files, name) <==> FilesDeclare(q.files, name)
    ensures Targets(p) == Targets(q)
  {
    forall t ensures (t in Targets(p) ==> t in Targets(q)) && (t in Targets(q) ==> t in Targets(p)) {
      TargetsMean(p, t);
      TargetsMean(q, t);
    }
    SortSorts(FileTargets(p.path, p.files));
    SortSorts(FileTargets(q.path, q.files));
    SortedUnique(Targets(p), Targets(q));
  }

  // `run`.

  const GENERATED_FILE := "reset.gen.go"

  function Quals(ts: seq<Target>): set<string> {
    set t | t in ts :: t.qual
  }

  function WillHave(pkgs: seq<Package>): set<string> {
    if |pkgs| == 0 then {}
    else
      var last := |pkgs| - 1;
      WillHave(pkgs[..last]) + Quals(Targets(pkgs[last]))
  }

  /** What the old outputs among the files declare. */
  function OldResets(files: seq<GoFile>): set<string> {
    set f, n | f in files && f.name == GENERATED_FILE && n in f.resets :: n
  }

  /** The same for all packages whose output is written anew. */
  function Replaced(pkgs: seq<Package>): set<string> {
    set p, n | p in pkgs && Targets(p) != [] && n in OldResets(p.files) :: n
  }

  /** The types of the packages, with what the scan found. */
  function EnvOf(decls: map<string, Decl>, pkgs: seq<Package>): Env {
    Env(decls, WillHave(pkgs), Replaced(pkgs))
  }

  /** The generator stops on every target. */
  predicate Stops(env: Env, pkgs: seq<Package>) {
    forall p :: p in pkgs ==> MethodsText(env, Targets(p)).Some?
  }

  /** The text of `reset.gen.go`, before `gofmt`, by package path. */
  function Outputs(env: Env, pkgs: seq<Package>): map<string, string>
    requires Stops(env, pkgs)
  {
    if |pkgs| == 0 then map[]
    else
      var last := |pkgs| - 1;
      var before := Outputs(env, pkgs[..last]);
      var ts := Targets(pkgs[last]);
      if ts == [] then before
      else before[pkgs[last].path := FileText(pkgs[last].name, MethodsText(env, ts).value)]
  }

  lemma OutputsSnoc(env: Env, pkgs: seq<Package>, i: nat)
    requires Stops(env, pkgs) && i < |pkgs|
    ensures Stops(env, pkgs[..i]) && Stops(env, pkgs[..i + 1]) && MethodsText(env, Targets(pkgs[i])).Some?
    ensures Outputs(env, pkgs[..i + 1]) ==
      if Targets(pkgs[i]) == [] then Outputs(env, pkgs[..i])
      else Outputs(env, pkgs[..i])[pkgs[i].path := FileText(pkgs[i].name, MethodsText(env, Targets(pkgs[i])).value)]
  {
    assert pkgs[i] in pkgs;
    assert pkgs[..i + 1][..i] == pkgs[..i];
  }

  function Found(pkgs: seq<Package>): seq<seq<Target>> {
    seq(|pkgs|, i requires 0 <= i < |pkgs| => Targets(pkgs[i]))
  }

  lemma WillHaveSnoc(pkgs: seq<Package>, i: nat)
    requires i < |pkgs|
    ensures Found(pkgs[..i + 1]) == Found(pkgs[..i]) + [Targets(pkgs[i])]
    ensures WillHave(pkgs[..i + 1]) == WillHave(pkgs[..i]) + Quals(Targets(pkgs[i]))
  {
    assert pkgs[..i + 1][..i] == pkgs[..i];
  }

  /** The first loop of `run`. */
  method Scan(pkgs: seq<Package>) returns (work: seq<seq<Target>>, willHave: set<string>)
    ensures work == Found(pkgs)
    ensures willHave == WillHave(pkgs)
  {
    work, willHave := [], {};
    for i := 0 to |pkgs|
      invariant work == Found(pkgs[..i])
      invariant willHave == WillHave(pkgs[..i])
    {
      WillHaveSnoc(pkgs, i);
      var ts := FindTargets(pkgs[i]);
      willHave := willHave + Quals(ts);
      work := work + [ts];
    }
    assert pkgs[..|pkgs|] == pkgs;
  }

  /** `run`: a target may refer to one of another package, so all are found before the first file is rendered. */
  method RunGenerator(decls: map<string, Decl>, pkgs: seq<Package>) returns (out: map<string, string>)
    requires Stops(EnvOf(decls, pkgs), pkgs)
    ensures out == Outputs(EnvOf(decls, pkgs), pkgs)
  {
    var work, willHave := Scan(pkgs);
    var env := Env(decls, willHave, Replaced(pkgs));
    out := map[];
    for i := 0 to |pkgs|
      invariant Stops(env, pkgs[..i])
      invariant out == Outputs(env, pkgs[..i])
    {
      OutputsSnoc(env, pkgs, i);
      if work[i] != [] {
        var src := RenderPackage(pkgs[i].name, work[i], env);
        out := out[pkgs[i].path := src];
      }
    }
    assert pkgs[..|pkgs|] == pkgs;
  }

  // Running it again.

  function OtherFiles(files: seq<GoFile>): seq<GoFile> {
    if |files| == 0 then []
    else
      var last := |files| - 1;
      OtherFiles(files[..last]) + if files[last].name == GENERATED_FILE then [] else [files[last]]
  }

  function Output(p: Package): GoFile {
    GoFile(GENERATED_FILE, true, [], Quals(Targets(p)))
  }

  /** The package once its file is written: an older file of that name is gone, the new one holds methods only. */
  function AfterWrite(p: Package): Package {
    if Targets(p) == [] then p else p.(files := OtherFiles(p.files) + [Output(p)])
  }

  /** The output's name is not taken by a hand-written file. */
  predicate NameIsFree(files: seq<GoFile>) {
    forall f :: f in files && f.name == GENERATED_FILE ==> f.generated
  }

  lemma {:induction false} OtherFilesTargets(path: string, files: seq<GoFile>)
    requires NameIsFree(files)
    ensures FileTargets(path, OtherFiles(files)) == FileTargets(path, files)
  {
    if |files| > 0 {
      var last := |files| - 1;
      var before := OtherFiles(files[..last]);
      OtherFilesTargets(path, files[..last]);
      assert files[last] in files;
      if files[last].name != GENERATED_FILE {
        assert OtherFiles(files)[..|before|] == before;
      } else {
        assert OtherFiles(files) == before;
      }
    }
  }

  lemma SameFileTargets(p: Package, q: Package)
    requires p.path == q.path && FileTargets(p.path, p.files) == FileTargets(q.path, q.files)
    ensures Targets(p) == Targets(q)
  {
  }

  lemma GeneratedFileTargets(path: string, files: seq<GoFile>, file: GoFile)
    requires file.generated
    ensures FileTargets(path, files + [file]) == FileTargets(path, files)
  {
  }

  lemma WriteKeepsTargets(p: Package)
    requires NameIsFree(p.files)
    ensures Targets(AfterWrite(p)) == Targets(p)
  {
    OtherFilesTargets(p.path, p.files);
    GeneratedFileTargets(p.path, OtherFiles(p.files), Output(p));
    SameFileTargets(p, AfterWrite(p));
  }

  function AfterWrites(pkgs: seq<Package>): (r: seq<Package>)
    ensures |r| == |pkgs| && forall i :: 0 <= i < |r| ==> r[i] == AfterWrite(pkgs[i])
  {
    seq(|pkgs|, i requires 0 <= i < |pkgs| => AfterWrite(pkgs[i]))
  }

  lemma {:induction false} SameWillHave(pkgs: seq<Package>)
    requires forall p :: p in pkgs ==> NameIsFree(p.files)
    ensures WillHave(AfterWrites(pkgs)) == WillHave(pkgs)
  {
    if |pkgs| > 0 {
      var last := |pkgs| - 1;
      SameWillHave(pkgs[..last]);
      assert AfterWrites(pkgs)[..last] == AfterWrites(pkgs[..last]);
      assert pkgs[last] in pkgs;
      WriteKeepsTargets(pkgs[last]);
    }
  }

  lemma {:induction false} NoOldOutput(files: seq<GoFile>)
    ensures forall f :: f in OtherFiles(files) ==> f.name != GENERATED_FILE
  {
    if |files| > 0 { NoOldOutput(files[..|files| - 1]); }
  }

  /** Once its file is written, a package's old output is the list of its targets. */
  lemma OutputIsOld(p: Package)
    requires NameIsFree(p.files) && Targets(p) != []
    ensures OldResets(AfterWrite(p).files) == Quals(Targets(p))
  {
    NoOldOutput(p.files);
    var files := AfterWrite(p).files;
    assert files == OtherFiles(p.files) + [Output(p)] && Output(p) in files;
    assert forall f :: f in files && f.name == GENERATED_FILE ==> f == Output(p);
  }

  lemma {:induction false} WillHaveIs(pkgs: seq<Package>, n: string)
    ensures n in WillHave(pkgs) <==> exists p :: p in pkgs && n in Quals(Targets(p))
  {
    if |pkgs| > 0 {
      var last := |pkgs| - 1;
      WillHaveIs(pkgs[..last], n);
      assert pkgs == pkgs[..last] + [pkgs[last]];
    }
  }

  /** The next run replaces exactly the methods of this one. */
  lemma SameReplaced(pkgs: seq<Package>)
    requires forall p :: p in pkgs ==> NameIsFree(p.files)
    ensures Replaced(AfterWrites(pkgs)) == WillHave(pkgs)
  {
    var after := AfterWrites(pkgs);
    forall n ensures n in Replaced(after) <==> n in WillHave(pkgs) {
      WillHaveIs(pkgs, n);
      if n in Replaced(after) {
        var q :| q in after && Targets(q) != [] && n in OldResets(q.files);
        var i :| 0 <= i < |after| && after[i] == q;
        assert pkgs[i] in pkgs;
        WriteKeepsTargets(pkgs[i]);
        OutputIsOld(pkgs[i]);
      }
      if p :| p in pkgs && n in Quals(Targets(p)) {
        var i :| 0 <= i < |pkgs| && pkgs[i] == p;
        assert after[i] in after;
        WriteKeepsTargets(p);
        OutputIsOld(p);
      }
    }
  }

  /** The second run sees what the first one leaves. */
  lemma SecondEnv(decls: map<string, Decl>, pkgs: seq<Package>)
    requires forall p :: p in pkgs ==> NameIsFree(p.files)
    ensures var after := AfterRun(EnvOf(decls, pkgs)); EnvOf(after.decls, AfterWrites(pkgs)) == after
  {
    SameWillHave(pkgs);
    SameReplaced(pkgs);
  }

  lemma {:induction false} TargetIsMarked(pkgs: seq<Package>, p: Package, t: Target)
    requires p in pkgs && t in Targets(p)
    ensures t.qual in WillHave(pkgs)
  {
    var last := |pkgs| - 1;
    if p != pkgs[last] {
      assert p in pkgs[..last];
      TargetIsMarked(pkgs[..last], p, t);
    }
  }

  lemma {:induction false} SameMethods(env: Env, ts: seq<Target>)
    requires forall t :: t in ts ==> MethodBody(AfterRun(env), t.qual) == MethodBody(env, t.qual)
    ensures MethodsText(AfterRun(env), ts) == MethodsText(env, ts)
  {
    if |ts| > 0 {
      var last := |ts| - 1;
      SameMethods(env, ts[..last]);
      assert ts[last] in ts;
    }
  }

  lemma {:induction false} BodyStops(env: Env, ts: seq<Target>, t: Target)
    requires MethodsText(env, ts).Some? && t in ts
    ensures MethodBody(env, t.qual).Some?
  {
    var last := |ts| - 1;
    if t != ts[last] {
      assert t in ts[..last];
      BodyStops(env, ts[..last], t);
    }
  }

  /** Every marked struct is declared, and no hand-written file has the output's name. */
  predicate Consistent(env: Env, pkgs: seq<Package>) {
    forall p :: p in pkgs ==> NameIsFree(p.files) && forall t :: t in Targets(p) ==> t.qual in env.decls
  }

  predicate SamePackage(env: Env, p: Package) {
    && Targets(AfterWrite(p)) == Targets(p)
    && MethodsText(AfterRun(env), Targets(p)) == MethodsText(env, Targets(p))
  }

  lemma PackageSame(env: Env, pkgs: seq<Package>, p: Package)
    requires WellFormedEnv(env) && MarkersKept(env) && NoUnmarkedEmbedsMarked(env)
    requires env.willHave == WillHave(pkgs) && p in pkgs
    requires Consistent(env, pkgs) && Stops(env, pkgs)
    ensures SamePackage(env, p)
  {
    WriteKeepsTargets(p);
    forall t | t in Targets(p) ensures MethodBody(AfterRun(env), t.qual) == MethodBody(env, t.qual) {
      TargetIsMarked(pkgs, p, t);
      BodyStops(env, Targets(p), t);
      SecondRunSame(env, t.qual);
    }
    SameMethods(env, Targets(p));
  }

  lemma {:induction false} SameOutputs(env: Env, env': Env, pkgs: seq<Package>)
    requires env' == AfterRun(env) && Stops(env, pkgs)
    requires forall p :: p in pkgs ==> SamePackage(env, p)
    ensures Stops(env', AfterWrites(pkgs))
    ensures Outputs(env', AfterWrites(pkgs)) == Outputs(env, pkgs)
  {
    StopsSame(env, env', pkgs);
    if |pkgs| > 0 {
      var last := |pkgs| - 1;
      var p := pkgs[last];
      SameOutputs(env, env', pkgs[..last]);
      var after := AfterWrites(pkgs);
      assert after[..last] == AfterWrites(pkgs[..last]);
      assert p in pkgs && SamePackage(env, p);
      assert pkgs[..last + 1] == pkgs && after[..last + 1] == after;
      OutputsSnoc(env, pkgs, last);
      OutputsSnoc(env', after, last);
    }
  }

  lemma StopsSame(env: Env, env': Env, pkgs: seq<Package>)
    requires env' == AfterRun(env) && Stops(env, pkgs)
    requires forall p :: p in pkgs ==> SamePackage(env, p)
    ensures Stops(env', AfterWrites(pkgs))
  {
  }

  /**
   A second run over the first one's output, whose methods and files it sees, writes the same files, provided no
   unmarked struct embeds a marked one and none lost its marker after an earlier run.
   */
  lemma RunningAgainWritesSame(decls: map<string, Decl>, pkgs: seq<Package>)
    requires var env := EnvOf(decls, pkgs);
      && WellFormedEnv(env) && MarkersKept(env) && NoUnmarkedEmbedsMarked(env)
      && Consistent(env, pkgs) && Stops(env, pkgs)
    ensures var env := EnvOf(decls, pkgs); var env' := EnvOf(AfterRun(env).decls, AfterWrites(pkgs));
      && Stops(env', AfterWrites(pkgs))
      && Outputs(env', AfterWrites(pkgs)) == Outputs(env, pkgs)
  {
    var env := EnvOf(decls, pkgs);
    SecondEnv(decls, pkgs);
    forall p | p in pkgs ensures SamePackage(env, p) { PackageSame(env, pkgs, p); }
    SameOutputs(env, AfterRun(env), pkgs);
  }
}
