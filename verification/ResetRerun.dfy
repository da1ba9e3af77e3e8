/**
 When a second run of the generator writes the same files: exactly when the methods of the first change none of the
 answers its code depends on. The files are compared as texts, so the proof reads them back.
 */
module ResetRerun {
  import opened Wrappers
  import opened GoTypes
  import opened ResetGen
  import opened ResetText
  import opened ResetTextUnique
  import opened ResetIdempotence
  import opened ResetRun

  // Code that reads the same.

  lemma {:induction false} EraseAt(ss: seq<Stmt>)
    ensures |EraseAll(ss)| == |ss| && forall i :: 0 <= i < |ss| ==> EraseAll(ss)[i] == Erase(ss[i])
  {
    if |ss| > 0 { EraseAt(ss[1..]); }
  }

  lemma EraseKeepsPath(s: Stmt, t: Stmt)
    requires Erase(s) == Erase(t)
    ensures s.p == t.p
  {
  }

  lemma SameEraseAt(ss: seq<Stmt>, ts: seq<Stmt>)
    requires EraseAll(ss) == EraseAll(ts)
    ensures |ss| == |ts| && forall i :: 0 <= i < |ss| ==> Erase(ss[i]) == Erase(ts[i])
  {
    EraseAt(ss);
    EraseAt(ts);
  }

  /** Code that reads the same for a struct reads the same for the fields before the last and for the last. */
  lemma SplitErased(env: Env, env': Env, fuel: nat, p: Path, fields: seq<Field>)
    requires |fields| > 0 && DistinctNames(fields)
    requires EmitStruct(env, fuel, p, fields).Some? && EmitStruct(env', fuel, p, fields).Some?
    requires EraseAll(EmitStruct(env', fuel, p, fields).value) == EraseAll(EmitStruct(env, fuel, p, fields).value)
    ensures var last := |fields| - 1; var f := fields[last];
      && EraseAll(EmitStruct(env', fuel, p, fields[..last]).value) ==
         EraseAll(EmitStruct(env, fuel, p, fields[..last]).value)
      && EraseAll(Emit(env', fuel, Sel(p, f.name), f.typ).value) ==
         EraseAll(Emit(env, fuel, Sel(p, f.name), f.typ).value)
  {
    var last := |fields| - 1;
    var f := fields[last];
    var a, a' := EmitStruct(env, fuel, p, fields[..last]).value, EmitStruct(env', fuel, p, fields[..last]).value;
    var b, b' := Emit(env, fuel, Sel(p, f.name), f.typ).value, Emit(env', fuel, Sel(p, f.name), f.typ).value;
    NotUnderLast(env, fuel, p, fields);
    NotUnderLast(env', fuel, p, fields);
    EmitUnder(env, fuel, Sel(p, f.name), f.typ);
    EmitUnder(env', fuel, Sel(p, f.name), f.typ);
    SplitByPath(a, b, a', b', Sel(p, f.name));
  }

  predicate AllUnder(ss: seq<Stmt>, q: Path) {
    forall s :: s in ss ==> Under(s.p, q)
  }

  predicate NoneUnder(ss: seq<Stmt>, q: Path) {
    forall s :: s in ss ==> !Under(s.p, q)
  }

  lemma SplitByPath(a: seq<Stmt>, b: seq<Stmt>, a': seq<Stmt>, b': seq<Stmt>, q: Path)
    requires EraseAll(a' + b') == EraseAll(a + b)
    requires NoneUnder(a, q) && NoneUnder(a', q) && AllUnder(b, q) && AllUnder(b', q)
    ensures EraseAll(a') == EraseAll(a) && EraseAll(b') == EraseAll(b)
  {
    NotLonger(a, b, a', b', q);
    NotLonger(a', b', a, b, q);
    EraseAppend(a, b);
    EraseAppend(a', b');
    EraseAt(a);
    EraseAt(a');
    var x, x', all := EraseAll(a), EraseAll(a'), EraseAll(a + b);
    assert x == all[..|x|] && x' == all[..|x|];
    assert EraseAll(b) == all[|x|..] && EraseAll(b') == all[|x|..];
  }

  lemma NotLonger(a: seq<Stmt>, b: seq<Stmt>, a': seq<Stmt>, b': seq<Stmt>, q: Path)
    requires EraseAll(a' + b') == EraseAll(a + b) && NoneUnder(a', q) && AllUnder(b, q)
    ensures |a'| <= |a|
  {
    if |a| < |a'| { SharedPath(a, b, a', b'); }
  }

  lemma {:induction false} EraseAppend(a: seq<Stmt>, b: seq<Stmt>)
    ensures EraseAll(a + b) == EraseAll(a) + EraseAll(b)
    decreases |a|
  {
    if |a| == 0 {
      assert a + b == b;
    } else {
      assert (a + b)[1..] == a[1..] + b;
      EraseAppend(a[1..], b);
    }
  }

  lemma EraseIndex(ss: seq<Stmt>, i: nat)
    ensures |EraseAll(ss)| == |ss|
    ensures i < |ss| ==> EraseAll(ss)[i] == Erase(ss[i])
  {
    EraseAt(ss);
  }

  /** Where the first part of one ends inside the first part of the other, two statements have one path. */
  lemma SharedPath(a: seq<Stmt>, b: seq<Stmt>, a': seq<Stmt>, b': seq<Stmt>)
    requires EraseAll(a' + b') == EraseAll(a + b) && |a| < |a'|
    ensures |b| > 0 && b[0] in b && a'[|a|] in a' && b[0].p == a'[|a|].p
  {
    EraseIndex(a + b, |a|);
    EraseIndex(a' + b', |a|);
    assert (a + b)[|a|] == b[0] && (a' + b')[|a|] == a'[|a|];
    EraseKeepsPath(b[0], a'[|a|]);
  }

  /** Code that reads the same comes from the same answers. */
  lemma {:induction false} SameReadingSameAnswers(env: Env, env': Env, fuel: nat, p: Path, t: GoType)
    requires WellFormedEnv(env) && SameTypes(env, env') && WellFormedType(t)
    requires Emit(env, fuel, p, t).Some? && Emit(env', fuel, p, t).Some?
    requires EraseAll(Emit(env', fuel, p, t).value) == EraseAll(Emit(env, fuel, p, t).value)
    ensures SameAnswers(env, env', fuel, t)
    decreases fuel, t, 1
  {
    match t
    case Pointer(_) =>
      PointerSameReading(env, env', fuel, p, t);
      if !HasOrWillHaveReset(env, t) { SameReadingSameAnswers(env, env', fuel, Deref(p), t.elem); }
    case Named(n) => NamedSameAnswers(env, env', fuel, p, n);
    case Struct(fields) => SameStructReading(env, env', fuel, p, fields);
    case _ =>
  }

  /** A named type that is not called is inlined. */
  lemma NamedShape(env: Env, fuel: nat, p: Path, n: string)
    requires !HasOrWillHaveReset(env, Named(n)) && Emit(env, fuel, p, Named(n)).Some?
    ensures fuel > 0 && Emit(env, fuel, p, Named(n)) == Emit(env, fuel - 1, p, Underlying(env, n))
  {
  }

  lemma {:induction false} NamedSameAnswers(env: Env, env': Env, fuel: nat, p: Path, n: string)
    requires WellFormedEnv(env) && SameTypes(env, env')
    requires Emit(env, fuel, p, Named(n)).Some? && Emit(env', fuel, p, Named(n)).Some?
    requires EraseAll(Emit(env', fuel, p, Named(n)).value) == EraseAll(Emit(env, fuel, p, Named(n)).value)
    ensures SameAnswers(env, env', fuel, Named(n))
    decreases fuel, Named(n), 0
  {
    assert Underlying(env, n) == Underlying(env', n);
    UnderlyingWellFormed(env, n);
    var u := Underlying(env, n);
    NamedSameReading(env, env', fuel, p, n);
    if !HasOrWillHaveReset(env, Named(n)) {
      assert SameAnswers(env, env', fuel - 1, u) by { SameReadingSameAnswers(env, env', fuel - 1, p, u); }
    }
    AnswersOfNamed(env, env', fuel, n);
  }

  lemma UnderlyingWellFormed(env: Env, n: string)
    requires WellFormedEnv(env)
    ensures !Underlying(env, n).Named? && WellFormedType(Underlying(env, n))
  {
  }

  lemma AnswersOfNamed(env: Env, env': Env, fuel: nat, n: string)
    requires HasOrWillHaveReset(env, Named(n)) == HasOrWillHaveReset(env', Named(n))
    requires !HasOrWillHaveReset(env, Named(n)) ==> fuel > 0 && SameAnswers(env, env', fuel - 1, Underlying(env, n))
    ensures SameAnswers(env, env', fuel, Named(n))
  {
  }

  lemma PointerSameReading(env: Env, env': Env, fuel: nat, p: Path, t: GoType)
    requires t.Pointer? && Emit(env, fuel, p, t).Some? && Emit(env', fuel, p, t).Some?
    requires EraseAll(Emit(env', fuel, p, t).value) == EraseAll(Emit(env, fuel, p, t).value)
    ensures HasOrWillHaveReset(env, t) == HasOrWillHaveReset(env', t)
    ensures !HasOrWillHaveReset(env, t) ==>
      && Emit(env, fuel, Deref(p), t.elem).Some? && Emit(env', fuel, Deref(p), t.elem).Some?
      && EraseAll(Emit(env', fuel, Deref(p), t.elem).value) == EraseAll(Emit(env, fuel, Deref(p), t.elem).value)
  {
    PointerShape(env, fuel, p, t);
    PointerShape(env', fuel, p, t);
    SameEraseAt(Emit(env', fuel, p, t).value, Emit(env, fuel, p, t).value);
    if HasOrWillHaveReset(env', t) && !HasOrWillHaveReset(env, t) { CallReadsDifferent(env, fuel, p, t); }
    if HasOrWillHaveReset(env, t) && !HasOrWillHaveReset(env', t) { CallReadsDifferent(env', fuel, p, t); }
  }

  lemma NamedSameReading(env: Env, env': Env, fuel: nat, p: Path, n: string)
    requires !Underlying(env, n).Named? && Underlying(env, n) == Underlying(env', n)
    requires Emit(env, fuel, p, Named(n)).Some? && Emit(env', fuel, p, Named(n)).Some?
    requires EraseAll(Emit(env', fuel, p, Named(n)).value) == EraseAll(Emit(env, fuel, p, Named(n)).value)
    ensures HasOrWillHaveReset(env, Named(n)) == HasOrWillHaveReset(env', Named(n))
    ensures !HasOrWillHaveReset(env, Named(n)) ==>
      && fuel > 0
      && Emit(env, fuel - 1, p, Underlying(env, n)).Some? && Emit(env', fuel - 1, p, Underlying(env, n)).Some?
      && EraseAll(Emit(env', fuel - 1, p, Underlying(env, n)).value) ==
           EraseAll(Emit(env, fuel - 1, p, Underlying(env, n)).value)
  {
    if !HasOrWillHaveReset(env, Named(n)) { NamedShape(env, fuel, p, n); }
    if !HasOrWillHaveReset(env', Named(n)) { NamedShape(env', fuel, p, n); }
    if HasOrWillHaveReset(env', Named(n)) && !HasOrWillHaveReset(env, Named(n)) {
      NamedReadsDifferent(env, env', fuel, p, n);
    }
    if HasOrWillHaveReset(env, Named(n)) && !HasOrWillHaveReset(env', Named(n)) {
      NamedReadsDifferent(env', env, fuel, p, n);
    }
  }

  lemma NamedReadsDifferent(env: Env, env': Env, fuel: nat, p: Path, n: string)
    requires !Underlying(env, n).Named? && Emit(env, fuel, p, Named(n)).Some?
    requires HasOrWillHaveReset(env', Named(n)) && !HasOrWillHaveReset(env, Named(n))
    ensures Emit(env', fuel, p, Named(n)).Some?
    ensures EraseAll(Emit(env, fuel, p, Named(n)).value) != EraseAll(Emit(env', fuel, p, Named(n)).value)
  {
    InlinedReadsDifferent(env, fuel - 1, p, n);
  }

  lemma CallReadsDifferent(env: Env, fuel: nat, p: Path, t: GoType)
    requires t.Pointer? && Emit(env, fuel, Deref(p), t.elem).Some?
    ensures EraseAll(Emit(env, fuel, Deref(p), t.elem).value) != EraseAll([CallReset(p, t)])
  {
    var body := Emit(env, fuel, Deref(p), t.elem).value;
    EmitUnder(env, fuel, Deref(p), t.elem);
    if EraseAll(body) == EraseAll([CallReset(p, t)]) {
      SameEraseAt(body, [CallReset(p, t)]);
      EraseKeepsPath(body[0], CallReset(p, t));
      assert body[0] in body;
      UnderDepth(p, Deref(p));
    }
  }

  lemma InlinedReadsDifferent(env: Env, fuel: nat, p: Path, n: string)
    requires Emit(env, fuel, p, Underlying(env, n)).Some? && !Underlying(env, n).Named?
    ensures EraseAll(Emit(env, fuel, p, Underlying(env, n)).value) != EraseAll([CallReset(p, Named(n))])
  {
    var under := Underlying(env, n);
    var body := Emit(env, fuel, p, under).value;
    if EraseAll(body) == EraseAll([CallReset(p, Named(n))]) {
      SameEraseAt(body, [CallReset(p, Named(n))]);
      EraseKeepsPath(body[0], CallReset(p, Named(n)));
      if under.Struct? {
        EmitStructUnder(env, fuel, p, under.fields);
        assert body[0] in body;
        var f :| f in under.fields && Under(p, Sel(p, f.name));
        UnderDepth(p, Sel(p, f.name));
      }
    }
  }

  lemma {:induction false} SameStructReading(env: Env, env': Env, fuel: nat, p: Path, fields: seq<Field>)
    requires WellFormedEnv(env) && SameTypes(env, env')
    requires DistinctNames(fields) && forall f :: f in fields ==> WellFormedType(f.typ)
    requires EmitStruct(env, fuel, p, fields).Some? && EmitStruct(env', fuel, p, fields).Some?
    requires EraseAll(EmitStruct(env', fuel, p, fields).value) == EraseAll(EmitStruct(env, fuel, p, fields).value)
    ensures forall f :: f in fields ==> SameAnswers(env, env', fuel, f.typ)
    decreases fuel, fields, 0
  {
    if |fields| > 0 {
      var last := |fields| - 1;
      var f := fields[last];
      assert fields == fields[..last] + [f];
      SplitErased(env, env', fuel, p, fields);
      SameStructReading(env, env', fuel, p, fields[..last]);
      SameReadingSameAnswers(env, env', fuel, Sel(p, f.name), f.typ);
    }
  }

  // Files that read the same.

  lemma {:induction false} MethodsCons(env: Env, ts: seq<Target>)
    requires |ts| > 0 && MethodsText(env, ts).Some?
    ensures MethodText(env, ts[0]).Some? && MethodsText(env, ts[1..]).Some?
    ensures MethodsText(env, ts).value == MethodText(env, ts[0]).value + MethodsText(env, ts[1..]).value
    decreases |ts|
  {
    var last := |ts| - 1;
    if last == 0 {
      assert ts[..0] == [] && ts[1..] == [];
      assert "" + MethodText(env, ts[0]).value == MethodText(env, ts[0]).value + "";
    } else {
      var first, mid, t := ts[0], ts[1..last], ts[last];
      assert ts[..last] == [first] + mid && ts[1..] == mid + [t];
      assert ([first] + mid)[0] == first && ([first] + mid)[1..] == mid;
      MethodsCons(env, [first] + mid);
      MethodsSnoc(env, mid, t);
      Assoc(MethodText(env, first).value, MethodsText(env, mid).value, MethodText(env, t).value);
    }
  }

  lemma MethodsSnoc(env: Env, ts: seq<Target>, t: Target)
    requires MethodsText(env, ts).Some? && MethodText(env, t).Some?
    ensures MethodsText(env, ts + [t]) == Some(MethodsText(env, ts).value + MethodText(env, t).value)
  {
    assert (ts + [t])[..|ts|] == ts;
  }

  predicate Readable(env: Env, ts: seq<Target>) {
    ProperEnv(env) && forall t :: t in ts ==> IsIdent(ReceiverName(t.name))
  }

  /** The text of a method in front of other text determines both. */
  lemma MethodAhead(env: Env, env': Env, t: Target, k: string, k': string)
    requires ProperEnv(env) && ProperEnv(env') && IsIdent(ReceiverName(t.name))
    requires MethodText(env, t).Some? && MethodText(env', t).Some?
    requires MethodText(env, t).value + k == MethodText(env', t).value + k'
    ensures EraseAll(MethodBody(env, t.qual).value) == EraseAll(MethodBody(env', t.qual).value) && k == k'
  {
    var recv := ReceiverName(t.name);
    var body, body' := MethodBody(env, t.qual).value, MethodBody(env', t.qual).value;
    EmitStructProper(env, |env.decls| + 1, Recv, Underlying(env, t.qual).fields);
    EmitStructProper(env', |env'.decls| + 1, Recv, Underlying(env', t.qual).fields);
    var h := MethodHeader(recv, t.name);
    Regroup(h, Text(recv, "\t", body), k);
    Regroup(h, Text(recv, "\t", body'), k');
    var x, y := Text(recv, "\t", body) + ("}\n" + k), Text(recv, "\t", body') + ("}\n" + k');
    assert (h + x)[|h|..] == x && (h + y)[|h|..] == y;
    TextUnique(recv, "\t", body, "}\n" + k, body', "}\n" + k');
    assert ("}\n" + k)[2..] == k && ("}\n" + k')[2..] == k';
  }

  lemma Regroup(h: string, text: string, k: string)
    ensures (h + (text + "}\n")) + k == h + (text + ("}\n" + k))
  {
    Assoc(h, text + "}\n", k);
    Assoc(text, "}\n", k);
  }

  /** The bodies generated for a struct read the same. */
  predicate BodiesRead(env: Env, env': Env, n: string) {
    && MethodBody(env, n).Some? && MethodBody(env', n).Some?
    && EraseAll(MethodBody(env, n).value) == EraseAll(MethodBody(env', n).value)
  }

  lemma FirstMethodRead(env: Env, env': Env, ts: seq<Target>)
    requires |ts| > 0 && Readable(env, ts) && ProperEnv(env')
    requires MethodsText(env, ts).Some? && MethodsText(env', ts) == MethodsText(env, ts)
    ensures BodiesRead(env, env', ts[0].qual)
    ensures MethodsText(env, ts[1..]).Some? && MethodsText(env', ts[1..]) == MethodsText(env, ts[1..])
  {
    MethodsCons(env, ts);
    MethodsCons(env', ts);
    assert ts[0] in ts;
    MethodAhead(env, env', ts[0], MethodsText(env, ts[1..]).value, MethodsText(env', ts[1..]).value);
  }

  lemma {:induction false} MethodsRead(env: Env, env': Env, ts: seq<Target>)
    requires Readable(env, ts) && ProperEnv(env')
    requires MethodsText(env, ts).Some? && MethodsText(env', ts) == MethodsText(env, ts)
    ensures forall t :: t in ts ==> BodiesRead(env, env', t.qual)
    decreases |ts|
  {
    if |ts| > 0 {
      assert ts == [ts[0]] + ts[1..];
      FirstMethodRead(env, env', ts);
      MethodsRead(env, env', ts[1..]);
    }
  }

  lemma FileRead(name: string, methods: string, methods': string)
    requires FileText(name, methods) == FileText(name, methods')
    ensures methods == methods'
  {
    var head := GENERATED_HEADER + "\n\npackage " + name + "\n";
    assert FileText(name, methods) == head + methods && FileText(name, methods') == head + methods';
    assert (head + methods)[|head|..] == methods && (head + methods')[|head|..] == methods';
  }

  // The whole run.

  predicate DistinctPaths(pkgs: seq<Package>) {
    forall i, j :: 0 <= i < j < |pkgs| ==> pkgs[i].path != pkgs[j].path
  }

  /** Every package with targets has its file among the outputs. */
  lemma {:induction false} OutputAt(env: Env, pkgs: seq<Package>, i: nat)
    requires Stops(env, pkgs) && DistinctPaths(pkgs) && i < |pkgs| && Targets(pkgs[i]) != []
    ensures pkgs[i] in pkgs && pkgs[i].path in Outputs(env, pkgs)
    ensures Outputs(env, pkgs)[pkgs[i].path] == FileText(pkgs[i].name, MethodsText(env, Targets(pkgs[i])).value)
    decreases |pkgs|
  {
    var last := |pkgs| - 1;
    assert pkgs[..last + 1] == pkgs;
    OutputsSnoc(env, pkgs, last);
    if i < last { OutputAt(env, pkgs[..last], i); }
  }

  /** The methods of the first run change no answer that the code of `t` depends on. */
  predicate Unaffected(env: Env, t: Target) {
    match Underlying(env, t.qual)
    case Struct(fields) => forall f :: f in fields ==> SameAnswers(env, AfterRun(env), |env.decls| + 1, f.typ)
    case _ => true
  }

  predicate AllUnaffected(env: Env, pkgs: seq<Package>) {
    forall p :: p in pkgs ==> forall t :: t in Targets(p) ==> Unaffected(env, t)
  }

  lemma ReadBackUnaffected(env: Env, ts: seq<Target>, t: Target)
    requires WellFormedEnv(env) && Readable(env, ts) && t in ts && t.qual in env.decls
    requires MethodsText(env, ts).Some? && MethodsText(AfterRun(env), ts) == MethodsText(env, ts)
    ensures Unaffected(env, t)
  {
    AfterProper(env);
    MethodsRead(env, AfterRun(env), ts);
    BodiesUnaffected(env, t);
  }

  lemma BodiesUnaffected(env: Env, t: Target)
    requires WellFormedEnv(env) && t.qual in env.decls && BodiesRead(env, AfterRun(env), t.qual)
    ensures Unaffected(env, t)
  {
    var after := AfterRun(env);
    assert after.decls.Keys == env.decls.Keys;
    CardKeys(env, after);
    assert WellFormedType(Underlying(env, t.qual)) && Underlying(after, t.qual) == Underlying(env, t.qual);
    SameStructReading(env, after, |env.decls| + 1, Recv, Underlying(env, t.qual).fields);
  }

  lemma AfterProper(env: Env)
    requires ProperEnv(env)
    ensures ProperEnv(AfterRun(env))
  {
    forall n | n in AfterRun(env).decls ensures ProperNames(AfterRun(env).decls[n].underlying) {
      assert ProperNames(env.decls[n].underlying);
    }
  }

  lemma UnaffectedSame(env: Env, pkgs: seq<Package>, p: Package)
    requires WellFormedEnv(env) && p in pkgs && Consistent(env, pkgs) && Stops(env, pkgs) && AllUnaffected(env, pkgs)
    ensures SamePackage(env, p)
  {
    WriteKeepsTargets(p);
    forall t | t in Targets(p) ensures MethodBody(AfterRun(env), t.qual) == MethodBody(env, t.qual) {
      BodyStops(env, Targets(p), t);
      SecondRunSameIff(env, t.qual);
      assert Unaffected(env, t);
    }
    SameMethods(env, Targets(p));
  }

  lemma SameFilesUnaffected(env: Env, pkgs: seq<Package>)
    requires WellFormedEnv(env) && Consistent(env, pkgs) && Stops(env, pkgs) && DistinctPaths(pkgs)
    requires forall p :: p in pkgs ==> Readable(env, Targets(p))
    requires Stops(AfterRun(env), AfterWrites(pkgs))
    requires Outputs(AfterRun(env), AfterWrites(pkgs)) == Outputs(env, pkgs)
    ensures AllUnaffected(env, pkgs)
  {
    forall p, t | p in pkgs && t in Targets(p) ensures Unaffected(env, t) {
      var i :| 0 <= i < |pkgs| && pkgs[i] == p;
      SameFileSameMethods(env, pkgs, i);
      ReadBackUnaffected(env, Targets(p), t);
    }
  }

  /** Equal files of one package in the outputs of two runs hold equal methods. */
  lemma SameOutputSameMethods(env: Env, env': Env, pkgs: seq<Package>, pkgs': seq<Package>, i: nat)
    requires Stops(env, pkgs) && DistinctPaths(pkgs) && Stops(env', pkgs') && DistinctPaths(pkgs')
    requires Outputs(env', pkgs') == Outputs(env, pkgs)
    requires i < |pkgs| && i < |pkgs'| && pkgs'[i].path == pkgs[i].path && pkgs'[i].name == pkgs[i].name
    requires Targets(pkgs[i]) != [] && Targets(pkgs'[i]) == Targets(pkgs[i])
    ensures MethodsText(env, Targets(pkgs[i])).Some?
    ensures MethodsText(env', Targets(pkgs[i])) == MethodsText(env, Targets(pkgs[i]))
  {
    OutputAt(env, pkgs, i);
    OutputAt(env', pkgs', i);
    var ts := Targets(pkgs[i]);
    FileRead(pkgs[i].name, MethodsText(env, ts).value, MethodsText(env', ts).value);
  }

  lemma SameFileSameMethods(env: Env, pkgs: seq<Package>, i: nat)
    requires Consistent(env, pkgs) && Stops(env, pkgs) && DistinctPaths(pkgs)
    requires Stops(AfterRun(env), AfterWrites(pkgs))
    requires Outputs(AfterRun(env), AfterWrites(pkgs)) == Outputs(env, pkgs)
    requires i < |pkgs| && Targets(pkgs[i]) != []
    ensures MethodsText(env, Targets(pkgs[i])).Some?
    ensures MethodsText(AfterRun(env), Targets(pkgs[i])) == MethodsText(env, Targets(pkgs[i]))
  {
    WriteKeepsTargets(pkgs[i]);
    SameOutputSameMethods(env, AfterRun(env), pkgs, AfterWrites(pkgs), i);
  }

  /**
   A second run, which sees the methods and files of the first, writes the same files exactly when none is affected.
   */
  lemma RunningAgainWritesSameIff(decls: map<string, Decl>, pkgs: seq<Package>)
    requires var env := EnvOf(decls, pkgs);
      && WellFormedEnv(env) && Consistent(env, pkgs) && Stops(env, pkgs) && DistinctPaths(pkgs)
      && forall p :: p in pkgs ==> Readable(env, Targets(p))
    ensures var env := EnvOf(decls, pkgs); var env' := EnvOf(AfterRun(env).decls, AfterWrites(pkgs));
      Stops(env', AfterWrites(pkgs)) && Outputs(env', AfterWrites(pkgs)) == Outputs(env, pkgs) <==>
      AllUnaffected(env, pkgs)
  {
    var env := EnvOf(decls, pkgs);
    SecondEnv(decls, pkgs);
    if AllUnaffected(env, pkgs) {
      forall p | p in pkgs ensures SamePackage(env, p) { UnaffectedSame(env, pkgs, p); }
      SameOutputs(env, AfterRun(env), pkgs);
    }
    if Stops(AfterRun(env), AfterWrites(pkgs)) && Outputs(AfterRun(env), AfterWrites(pkgs)) == Outputs(env, pkgs) {
      SameFilesUnaffected(env, pkgs);
    }
  }
}
