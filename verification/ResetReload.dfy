/**
 Whether the package that a run leaves behind compiles, so that the generator can load it again: no method is declared
 twice, and every `Reset()` that the generated code calls is still found.
 */
module ResetReload {
  import opened Wrappers
  import opened GoTypes
  import opened ResetGen
  import opened ResetText
  import opened ResetIdempotence
  import opened ResetRun
  import opened ResetRerun

  // The calls in generated code.

  /** The static types on whose values the statements call `Reset`. */
  function CallTypes(ss: seq<Stmt>): set<GoType> {
    if |ss| == 0 then {}
    else
      CallTypes(ss[1..]) +
      match ss[0]
      case CallReset(_, t) => {t}
      case IfNonNil(_, body) => CallTypes(body)
      case _ => {}
  }

  /** The types for which the generator's question is answered yes in emitting `t`. */
  function Called(env: Env, fuel: nat, t: GoType): set<GoType>
    decreases fuel, t, 1
  {
    match t
    case Pointer(elem) => if HasOrWillHaveReset(env, t) then {t} else Called(env, fuel, elem)
    case Named(n) =>
      if HasOrWillHaveReset(env, t) then {t} else if fuel == 0 then {} else Called(env, fuel - 1, Underlying(env, n))
    case Struct(fields) => CalledByFields(env, fuel, fields)
    case _ => {}
  }

  function CalledByFields(env: Env, fuel: nat, fields: seq<Field>): set<GoType>
    decreases fuel, fields, 0
  {
    set f, c | f in fields && c in Called(env, fuel, f.typ) :: c
  }

  lemma {:induction false} CallTypesAppend(ss: seq<Stmt>, ts: seq<Stmt>)
    ensures CallTypes(ss + ts) == CallTypes(ss) + CallTypes(ts)
    decreases |ss|
  {
    if |ss| == 0 {
      assert ss + ts == ts;
    } else {
      CallTypesAppend(ss[1..], ts);
      assert (ss + ts)[1..] == ss[1..] + ts;
    }
  }

  lemma OneCallType(s: Stmt)
    ensures s.CallReset? ==> CallTypes([s]) == {s.typ}
    ensures s.IfNonNil? ==> CallTypes([s]) == CallTypes(s.body)
    ensures !s.CallReset? && !s.IfNonNil? ==> CallTypes([s]) == {}
  {
    assert [s][1..] == [];
  }

  /** The emitted code calls `Reset` on exactly those. */
  lemma {:induction false} EmittedCalls(env: Env, fuel: nat, p: Path, t: GoType)
    requires Emit(env, fuel, p, t).Some?
    ensures CallTypes(Emit(env, fuel, p, t).value) == Called(env, fuel, t)
    decreases fuel, t, 1
  {
    var ss := Emit(env, fuel, p, t).value;
    if |ss| == 1 { OneCallType(ss[0]); assert ss == [ss[0]]; }
    match t
    case Pointer(elem) =>
      PointerShape(env, fuel, p, t);
      OneCallType(CallReset(p, t));
      if !HasOrWillHaveReset(env, t) { EmittedCalls(env, fuel, Deref(p), elem); }
    case Named(n) => if !HasOrWillHaveReset(env, t) { EmittedCalls(env, fuel - 1, p, Underlying(env, n)); }
    case Struct(fields) => EmittedStructCalls(env, fuel, p, fields);
    case _ =>
  }

  lemma {:induction false} EmittedStructCalls(env: Env, fuel: nat, p: Path, fields: seq<Field>)
    requires EmitStruct(env, fuel, p, fields).Some?
    ensures CallTypes(EmitStruct(env, fuel, p, fields).value) == CalledByFields(env, fuel, fields)
    decreases fuel, fields, 0
  {
    if |fields| > 0 {
      var last := |fields| - 1;
      var f := fields[last];
      EmittedStructCalls(env, fuel, p, fields[..last]);
      EmittedCalls(env, fuel, Sel(p, f.name), f.typ);
      CallTypesAppend(EmitStruct(env, fuel, p, fields[..last]).value, Emit(env, fuel, Sel(p, f.name), f.typ).value);
      assert fields == fields[..last] + [f];
    }
  }

  // What the type checker asks of the package.

  /** `p.Reset()` is a legal call on an addressable `p` of type `t`. */
  predicate HasReset(env: Env, t: GoType) {
    if t.Pointer? then !IsInterface(env, t.elem) && MethodSetHasReset(env, t.elem) else MethodSetHasReset(env, t)
  }

  /** The marked struct has no other `Reset`, be it a method declared by hand or a field. */
  predicate DeclaredOnce(env: Env, n: string) {
    && n in env.decls && (n in env.replaced || env.decls[n].reset.Absent?)
    && Underlying(env, n).Struct? && !HasFieldReset(Underlying(env, n))
  }

  predicate AllDeclaredOnce(env: Env) {
    forall n :: n in env.willHave ==> DeclaredOnce(env, n)
  }

  /** Every call in the body generated for `n` is legal in the files the run leaves. */
  predicate CallsResolve(env: Env, n: string) {
    MethodBody(env, n).Some? ==> forall t :: t in CallTypes(MethodBody(env, n).value) ==> HasReset(AfterRun(env), t)
  }

  /** The files a run leaves compile. */
  predicate Compiles(env: Env) {
    AllDeclaredOnce(env) && forall n :: n in env.willHave ==> CallsResolve(env, n)
  }

  // A call on a marked struct always is.

  lemma MarkedHasReset(env: Env, n: string)
    requires DeclaredOnce(env, n) && n in env.willHave
    ensures MethodSetHasReset(AfterRun(env), Named(n))
  {
    assert Underlying(AfterRun(env), n) == Underlying(env, n);
    SearchPlain(AfterRun(env), Entry(n, false, []), {});
  }

  /** The generator's question, asked of the files it leaves, is the type checker's. */
  lemma QuestionIsCheck(env: Env, t: GoType)
    requires AllDeclaredOnce(env)
    ensures HasOrWillHaveReset(AfterRun(env), t) <==> HasReset(AfterRun(env), t)
  {
    var inner := Receiver(t);
    if inner.Named? && inner.name in env.willHave {
      MarkedHasReset(env, inner.name);
      assert Underlying(AfterRun(env), inner.name) == Underlying(env, inner.name);
    }
  }

  // When a call on an unmarked type is.

  /** After the run `Reset` occurs several times at the depth that decides. */
  predicate Ambiguous(env: Env, t: GoType) {
    var hits := ResetHits(AfterRun(env), t);
    |hits| > 1 || (|hits| == 1 && hits[0].MethodHit? && hits[0].owner.multiples)
  }

  predicate AllNiladic(hits: seq<Hit>) {
    forall hit :: hit in hits ==> hit.MethodHit? && hit.decl.Niladic?
  }

  /** What one type contributes after the run: what it did before, or the generated method. */
  lemma EntryAfter(env: Env, e: Entry)
    requires AllDeclaredOnce(env) && MarkersKept(env) && e.name in env.decls
    ensures e.name in env.willHave ==> EntryHits(AfterRun(env), e) == [MethodHit(Niladic, e)]
    ensures e.name !in env.willHave ==> EntryHits(AfterRun(env), e) == EntryHits(env, e)
    ensures EntryNext(AfterRun(env), e) == EntryNext(env, e)
  {
    if e.name in env.willHave { FieldHitsMean(Underlying(env, e.name).fields); }
  }

  lemma {:induction false} LevelAfter(env: Env, level: seq<Entry>)
    requires AllDeclaredOnce(env) && MarkersKept(env) && forall e :: e in level ==> e.name in env.decls
    ensures LevelNext(AfterRun(env), level) == LevelNext(env, level)
    ensures |LevelHits(env, level)| > 0 ==> |LevelHits(AfterRun(env), level)| > 0
    ensures AllNiladic(LevelHits(env, level)) ==> AllNiladic(LevelHits(AfterRun(env), level))
    decreases |level|
  {
    if |level| > 0 {
      assert level[0] in level;
      EntryAfter(env, level[0]);
      LevelAfter(env, level[1..]);
      var here, rest := EntryHits(env, level[0]), LevelHits(env, level[1..]);
      assert LevelHits(env, level) == here + rest;
      assert forall hit :: hit in rest ==> hit in here + rest;
      assert forall hit :: hit in here ==> hit in here + rest;
    }
  }

  /** The run takes away no method that was found, and all it adds are methods `Reset()`. */
  lemma {:induction false} SearchAfter(env: Env, level: seq<Entry>, seen: set<string>)
    requires AllDeclaredOnce(env) && MarkersKept(env)
    ensures |Search(env, level, seen)| > 0 ==> |Search(AfterRun(env), level, seen)| > 0
    ensures AllNiladic(Search(env, level, seen)) ==> AllNiladic(Search(AfterRun(env), level, seen))
    decreases env.decls.Keys - seen
  {
    FreshSame(env, level, seen);
    assert AfterRun(env).decls.Keys == env.decls.Keys;
    var current := Fresh(env, level, seen);
    if |current| > 0 {
      LevelAfter(env, current);
      assert current[0] in current && current[0].name in LevelNames(current);
      SearchAfter(env, Consolidate(LevelNext(env, current)), seen + LevelNames(current));
    }
  }

  /** So a `Reset` that was found before can only become ambiguous. */
  lemma ResolvesIff(env: Env, t: GoType)
    requires AllDeclaredOnce(env) && MarkersKept(env) && FindsReset(ResetHits(env, t))
    ensures FindsReset(ResetHits(AfterRun(env), t)) <==> !Ambiguous(env, t)
  {
    var hits, after := ResetHits(env, t), ResetHits(AfterRun(env), t);
    assert AllNiladic(hits);
    match t
    case Named(n) => SearchAfter(env, [Entry(n, false, [])], {});
    case Struct(fields) => SearchAfter(env, Consolidate(StructEntries(fields, false, [])), {});
    assert |after| > 0 && after[0] in after;
  }

  lemma {:induction false} CalledAsked(env: Env, env': Env, fuel: nat, t: GoType, c: GoType)
    requires c in Called(env, fuel, t)
    ensures HasOrWillHaveReset(env, c) && (c.Named? || c.Pointer?)
    ensures SameAnswers(env, env', fuel, t) ==> HasOrWillHaveReset(env', c)
    decreases fuel, t
  {
    match t
    case Pointer(elem) => if !HasOrWillHaveReset(env, t) { CalledAsked(env, env', fuel, elem, c); }
    case Named(n) => if !HasOrWillHaveReset(env, t) { CalledAsked(env, env', fuel - 1, Underlying(env, n), c); }
    case Struct(fields) =>
      var f :| f in fields && c in Called(env, fuel, f.typ);
      CalledAsked(env, env', fuel, f.typ, c);
  }

  /** The calls in a generated body are those of the fields' answers. */
  lemma BodyCalls(env: Env, n: string, c: GoType) returns (f: Field)
    requires MethodBody(env, n).Some? && c in CallTypes(MethodBody(env, n).value)
    ensures Underlying(env, n).Struct? && f in Underlying(env, n).fields && c in Called(env, |env.decls| + 1, f.typ)
  {
    var fields := Underlying(env, n).fields;
    EmittedStructCalls(env, |env.decls| + 1, Recv, fields);
    f :| f in fields && c in Called(env, |env.decls| + 1, f.typ);
  }

  /** The call on a `c` has a marked receiver, or one whose `Reset` stays unique. */
  predicate StaysUnique(env: Env, c: GoType) {
    (Receiver(c).Named? && Receiver(c).name in env.willHave) || !Ambiguous(env, Receiver(c))
  }

  lemma CallResolvesIff(env: Env, c: GoType)
    requires AllDeclaredOnce(env) && MarkersKept(env)
    requires HasOrWillHaveReset(env, c) && (c.Named? || c.Pointer?)
    ensures HasReset(AfterRun(env), c) <==> StaysUnique(env, c)
  {
    var inner := Receiver(c);
    QuestionIsCheck(env, c);
    if !(inner.Named? && inner.name in env.willHave) {
      assert !inner.Interface?;
      ResolvesIff(env, inner);
      assert forall n :: Underlying(AfterRun(env), n) == Underlying(env, n);
    }
  }

  /**
   Unless a struct has lost its marker since the last run, the files that a run leaves compile exactly when no marked
   struct has another `Reset` and no call it generates becomes ambiguous.
   */
  lemma CompilesIff(env: Env)
    requires MarkersKept(env)
    ensures Compiles(env) <==>
      && AllDeclaredOnce(env)
      && forall n :: n in env.willHave && MethodBody(env, n).Some? ==>
        forall c :: c in CallTypes(MethodBody(env, n).value) ==> StaysUnique(env, c)
  {
    if AllDeclaredOnce(env) {
      forall n, c | n in env.willHave && MethodBody(env, n).Some? && c in CallTypes(MethodBody(env, n).value)
        ensures HasReset(AfterRun(env), c) <==> StaysUnique(env, c)
      {
        var f := BodyCalls(env, n, c);
        CalledAsked(env, env, |env.decls| + 1, f.typ, c);
        CallResolvesIff(env, c);
      }
    }
  }

  /** A struct that lost its marker loses its method with the old file, and a call on it no longer compiles. */
  lemma LostMarkerBreaks(env: Env, n: string, lost: string)
    requires n in env.willHave && MethodBody(env, n).Some? && Named(lost) in CallTypes(MethodBody(env, n).value)
    requires lost in env.replaced && lost !in env.willHave && IsPlain(env, lost)
    requires Underlying(env, lost).Struct? ==> forall f :: f in Underlying(env, lost).fields ==> !f.embedded
    ensures !Compiles(env)
  {
    assert Underlying(AfterRun(env), lost) == Underlying(env, lost);
    OwnResetDecides(AfterRun(env), lost);
    assert !HasReset(AfterRun(env), Named(lost));
  }

  /** Unaffected answers keep every generated call legal. */
  lemma UnaffectedResolves(env: Env, t: Target)
    requires AllDeclaredOnce(env) && Unaffected(env, t)
    ensures CallsResolve(env, t.qual)
  {
    if MethodBody(env, t.qual).Some? {
      forall c | c in CallTypes(MethodBody(env, t.qual).value) ensures HasReset(AfterRun(env), c) {
        var f := BodyCalls(env, t.qual, c);
        CalledAsked(env, AfterRun(env), |env.decls| + 1, f.typ, c);
        QuestionIsCheck(env, c);
      }
    }
  }

  /**
   A second run can load what the first one leaves, and writes the same files, exactly when the methods of the first
   change no answer its code depends on and no marked struct has another `Reset`.
   */
  lemma RunningAgainSucceedsIff(decls: map<string, Decl>, pkgs: seq<Package>)
    requires var env := EnvOf(decls, pkgs);
      && WellFormedEnv(env) && Consistent(env, pkgs) && Stops(env, pkgs) && DistinctPaths(pkgs)
      && forall p :: p in pkgs ==> Readable(env, Targets(p))
    ensures var env := EnvOf(decls, pkgs); var env' := EnvOf(AfterRun(env).decls, AfterWrites(pkgs));
      Compiles(env) && Stops(env', AfterWrites(pkgs)) && Outputs(env', AfterWrites(pkgs)) == Outputs(env, pkgs) <==>
      AllUnaffected(env, pkgs) && AllDeclaredOnce(env)
  {
    var env := EnvOf(decls, pkgs);
    RunningAgainWritesSameIff(decls, pkgs);
    if AllUnaffected(env, pkgs) && AllDeclaredOnce(env) {
      forall n | n in env.willHave ensures CallsResolve(env, n) {
        WillHaveIs(pkgs, n);
        var p :| p in pkgs && n in Quals(Targets(p));
        var t :| t in Targets(p) && t.qual == n;
        UnaffectedResolves(env, t);
      }
    }
  }
}
