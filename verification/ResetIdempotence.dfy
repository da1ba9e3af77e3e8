/**
 A second run of the generator sees the methods the first one wrote. It emits the same code exactly when those methods
 change no answer the first run relied on; embedding a marked struct in an unmarked one is how they can.
 */
module ResetIdempotence {
  import opened Wrappers
  import opened GoTypes
  import opened ResetGen

  // What Go's type checker guarantees of declarations.

  predicate DistinctNames(fields: seq<Field>) {
    forall i, j :: 0 <= i < j < |fields| ==> fields[i].name != fields[j].name
  }

  predicate WellFormedType(t: GoType) {
    match t
    case Pointer(elem) => WellFormedType(elem)
    case Struct(fields) => DistinctNames(fields) && forall f :: f in fields ==> WellFormedType(f.typ)
    case _ => true
  }

  predicate WellFormedEnv(env: Env) {
    forall n :: n in env.decls ==> !env.decls[n].underlying.Named? && WellFormedType(env.decls[n].underlying)
  }

  /** Every `hasOrWillHaveReset` question asked in emitting `t` under `env` has the same answer under `env'`. */
  predicate SameAnswers(env: Env, env': Env, fuel: nat, t: GoType)
    decreases fuel, t
  {
    match t
    case Pointer(elem) =>
      && HasOrWillHaveReset(env, t) == HasOrWillHaveReset(env', t)
      && (!HasOrWillHaveReset(env, t) ==> SameAnswers(env, env', fuel, elem))
    case Named(n) =>
      && HasOrWillHaveReset(env, t) == HasOrWillHaveReset(env', t)
      && (!HasOrWillHaveReset(env, t) && fuel > 0 ==> SameAnswers(env, env', fuel - 1, Underlying(env, n)))
    case Struct(fields) => forall f :: f in fields ==> SameAnswers(env, env', fuel, f.typ)
    case _ => true
  }

  // Emitted statements access only what lies under the path they were emitted for.

  predicate Under(q: Path, p: Path) {
    q == p || match q
              case Recv => false
              case Sel(base, _) => Under(base, p)
              case Deref(base) => Under(base, p)
  }

  function Depth(p: Path): nat {
    match p
    case Recv => 0
    case Sel(base, _) => 1 + Depth(base)
    case Deref(base) => 1 + Depth(base)
  }

  lemma {:induction false} UnderDepth(q: Path, p: Path)
    requires Under(q, p)
    ensures Depth(q) >= Depth(p)
    ensures Depth(q) == Depth(p) ==> q == p
  {
    if q != p {
      match q
      case Sel(base, _) => UnderDepth(base, p);
      case Deref(base) => UnderDepth(base, p);
    }
  }

  lemma {:induction false} UnderTransitive(q: Path, r: Path, p: Path)
    requires Under(q, r) && Under(r, p)
    ensures Under(q, p)
  {
    if q != r {
      match q
      case Sel(base, _) => UnderTransitive(base, r, p);
      case Deref(base) => UnderTransitive(base, r, p);
    }
  }

  /** A path lies under at most one field of a struct. */
  lemma {:induction false} UnderOneField(q: Path, p: Path, f: string, g: string)
    requires Under(q, Sel(p, f)) && Under(q, Sel(p, g))
    ensures f == g
  {
    if q == Sel(p, f) {
      UnderDepth(q, Sel(p, g));
    } else if q == Sel(p, g) {
      UnderDepth(q, Sel(p, f));
    } else {
      match q
      case Sel(base, _) => UnderOneField(base, p, f, g);
      case Deref(base) => UnderOneField(base, p, f, g);
    }
  }

  lemma {:induction false} EmitUnder(env: Env, fuel: nat, p: Path, t: GoType)
    requires Emit(env, fuel, p, t).Some?
    ensures forall s :: s in Emit(env, fuel, p, t).value ==> Under(s.p, p)
    decreases fuel, t, 1
  {
    match t
    case Named(n) => if !HasOrWillHaveReset(env, t) { EmitUnder(env, fuel - 1, p, Underlying(env, n)); }
    case Struct(fields) =>
      EmitStructUnder(env, fuel, p, fields);
      forall s | s in Emit(env, fuel, p, t).value ensures Under(s.p, p) {
        var f :| f in fields && Under(s.p, Sel(p, f.name));
        UnderTransitive(s.p, Sel(p, f.name), p);
      }
    case _ =>
  }

  lemma {:induction false} EmitStructUnder(env: Env, fuel: nat, p: Path, fields: seq<Field>)
    requires EmitStruct(env, fuel, p, fields).Some?
    ensures forall s :: s in EmitStruct(env, fuel, p, fields).value ==>
      exists f :: f in fields && Under(s.p, Sel(p, f.name))
    decreases fuel, fields, 0
  {
    if |fields| > 0 {
      var last := |fields| - 1;
      EmitStructUnder(env, fuel, p, fields[..last]);
      EmitUnder(env, fuel, Sel(p, fields[last].name), fields[last].typ);
    }
  }

  // Same code exactly when same answers.

  ghost predicate SameTypes(env: Env, env': Env) {
    forall n :: Underlying(env, n) == Underlying(env', n)
  }

  /** The first run's code is emitted again if and only if no question it asked has changed its answer. */
  lemma {:induction false} SameCodeIff(env: Env, env': Env, fuel: nat, p: Path, t: GoType)
    requires WellFormedEnv(env) && SameTypes(env, env') && WellFormedType(t)
    requires Emit(env, fuel, p, t).Some?
    ensures Emit(env', fuel, p, t) == Emit(env, fuel, p, t) <==> SameAnswers(env, env', fuel, t)
    decreases fuel, t, 1
  {
    match t
    case Pointer(_) =>
      if HasOrWillHaveReset(env, t) == HasOrWillHaveReset(env', t) {
        if !HasOrWillHaveReset(env, t) { SameCodeIff(env, env', fuel, Deref(p), t.elem); }
      } else {
        PointerAnswerShows(env, env', fuel, p, t);
      }
    case Named(n) =>
      assert Underlying(env, n) == Underlying(env', n);
      if HasOrWillHaveReset(env, t) == HasOrWillHaveReset(env', t) {
        if !HasOrWillHaveReset(env, t) { SameCodeIff(env, env', fuel - 1, p, Underlying(env, n)); }
      } else {
        NamedAnswerShows(env, env', fuel, p, n);
      }
    case Struct(fields) => SameStructIff(env, env', fuel, p, fields);
    case _ =>
  }

  /** A changed answer about a pointer shows in the code. */
  lemma PointerAnswerShows(env: Env, env': Env, fuel: nat, p: Path, t: GoType)
    requires t.Pointer? && Emit(env, fuel, p, t).Some?
    requires HasOrWillHaveReset(env, t) != HasOrWillHaveReset(env', t)
    ensures Emit(env', fuel, p, t) != Emit(env, fuel, p, t)
  {
    if HasOrWillHaveReset(env', t) {
      CallIsNotInlined(env, fuel, p, t);
    } else if Emit(env', fuel, p, t).Some? {
      CallIsNotInlined(env', fuel, p, t);
    }
  }

  /** So does a changed answer about a named type. */
  lemma NamedAnswerShows(env: Env, env': Env, fuel: nat, p: Path, n: string)
    requires WellFormedEnv(env) && SameTypes(env, env') && Emit(env, fuel, p, Named(n)).Some?
    requires HasOrWillHaveReset(env, Named(n)) != HasOrWillHaveReset(env', Named(n))
    ensures Emit(env', fuel, p, Named(n)) != Emit(env, fuel, p, Named(n))
  {
    assert Underlying(env, n) == Underlying(env', n);
    if HasOrWillHaveReset(env', Named(n)) {
      InlinedIsNotCall(env, fuel - 1, p, n);
    } else if Emit(env', fuel, p, Named(n)).Some? {
      InlinedIsNotCall(env', fuel - 1, p, n);
    }
  }

  lemma CallIsNotInlined(env: Env, fuel: nat, p: Path, t: GoType)
    requires t.Pointer? && Emit(env, fuel, Deref(p), t.elem).Some?
    ensures Emit(env, fuel, Deref(p), t.elem).value != [CallReset(p, t)]
  {
    EmitUnder(env, fuel, Deref(p), t.elem);
    if Emit(env, fuel, Deref(p), t.elem).value == [CallReset(p, t)] {
      assert CallReset(p, t) in Emit(env, fuel, Deref(p), t.elem).value;
      UnderDepth(p, Deref(p));
    }
  }

  lemma InlinedIsNotCall(env: Env, fuel: nat, p: Path, n: string)
    requires Emit(env, fuel, p, Underlying(env, n)).Some?
    requires !Underlying(env, n).Named?
    ensures Emit(env, fuel, p, Underlying(env, n)).value != [CallReset(p, Named(n))]
  {
    match Underlying(env, n)
    case Struct(fields) =>
      EmitStructUnder(env, fuel, p, fields);
      var ss := EmitStruct(env, fuel, p, fields).value;
      if ss == [CallReset(p, Named(n))] {
        assert ss[0] in ss;
        var f :| f in fields && Under(p, Sel(p, f.name));
        UnderDepth(p, Sel(p, f.name));
      }
    case _ =>
  }

  lemma {:induction false} SameStructIff(env: Env, env': Env, fuel: nat, p: Path, fields: seq<Field>)
    requires WellFormedEnv(env) && SameTypes(env, env')
    requires DistinctNames(fields) && forall f :: f in fields ==> WellFormedType(f.typ)
    requires EmitStruct(env, fuel, p, fields).Some?
    ensures EmitStruct(env', fuel, p, fields) == EmitStruct(env, fuel, p, fields) <==>
      forall f :: f in fields ==> SameAnswers(env, env', fuel, f.typ)
    decreases fuel, fields, 0
  {
    if |fields| > 0 {
      var last := |fields| - 1;
      var f := fields[last];
      assert fields == fields[..last] + [f];
      SameStructIff(env, env', fuel, p, fields[..last]);
      SameCodeIff(env, env', fuel, Sel(p, f.name), f.typ);
      if EmitStruct(env', fuel, p, fields) == EmitStruct(env, fuel, p, fields) {
        SplitAtLastField(env, env', fuel, p, fields);
      }
    }
  }

  lemma InBoth(a: seq<Stmt>, b: seq<Stmt>, a': seq<Stmt>, b': seq<Stmt>)
    requires a + b == a' + b' && |a| < |a'|
    ensures exists s :: s in a' && s in b
  {
    var s := (a + b)[|a|];
    assert s == b[0] && s == (a' + b')[|a|] == a'[|a|];
    assert s in a' && s in b;
  }

  /** Equal code for a struct is equal code for the fields before the last and for the last. */
  lemma SplitAtLastField(env: Env, env': Env, fuel: nat, p: Path, fields: seq<Field>)
    requires |fields| > 0 && DistinctNames(fields)
    requires EmitStruct(env, fuel, p, fields).Some?
    requires EmitStruct(env', fuel, p, fields) == EmitStruct(env, fuel, p, fields)
    ensures var last := |fields| - 1; var f := fields[last];
      && EmitStruct(env', fuel, p, fields[..last]) == EmitStruct(env, fuel, p, fields[..last])
      && Emit(env', fuel, Sel(p, f.name), f.typ) == Emit(env, fuel, Sel(p, f.name), f.typ)
  {
    var last := |fields| - 1;
    var f := fields[last];
    var before := EmitStruct(env, fuel, p, fields[..last]).value;
    var before' := EmitStruct(env', fuel, p, fields[..last]).value;
    var here, here' := Emit(env, fuel, Sel(p, f.name), f.typ).value, Emit(env', fuel, Sel(p, f.name), f.typ).value;
    var all := before + here;
    assert all == before' + here';
    NotUnderLast(env, fuel, p, fields);
    NotUnderLast(env', fuel, p, fields);
    EmitUnder(env, fuel, Sel(p, f.name), f.typ);
    EmitUnder(env', fuel, Sel(p, f.name), f.typ);
    if |before| < |before'| { InBoth(before, here, before', here'); }
    if |before'| < |before| { InBoth(before', here', before, here); }
    assert before == all[..|before|] && before' == all[..|before|];
    assert here == all[|before|..] && here' == all[|before|..];
  }

  lemma NotUnderLast(env: Env, fuel: nat, p: Path, fields: seq<Field>)
    requires |fields| > 0 && DistinctNames(fields)
    requires EmitStruct(env, fuel, p, fields[..|fields| - 1]).Some?
    ensures forall s :: s in EmitStruct(env, fuel, p, fields[..|fields| - 1]).value ==>
      !Under(s.p, Sel(p, fields[|fields| - 1].name))
  {
    var last := |fields| - 1;
    EmitStructUnder(env, fuel, p, fields[..last]);
    forall s | s in EmitStruct(env, fuel, p, fields[..last]).value ensures !Under(s.p, Sel(p, fields[last].name)) {
      var g :| g in fields[..last] && Under(s.p, Sel(p, g.name));
      if Under(s.p, Sel(p, fields[last].name)) { UnderOneField(s.p, p, g.name, fields[last].name); }
    }
  }

  // Embedding.

  predicate EmbedsMarked(env: Env, fields: seq<Field>) {
    exists e :: e in StructEntries(fields, false, []) && e.name in env.willHave
  }

  /** No struct in `t`, named types aside, embeds a marked one. */
  predicate NoMarkedEmbedded(env: Env, t: GoType) {
    match t
    case Pointer(elem) => NoMarkedEmbedded(env, elem)
    case Struct(fields) => !EmbedsMarked(env, fields) && forall f :: f in fields ==> NoMarkedEmbedded(env, f.typ)
    case _ => true
  }

  /** No unmarked struct, anonymous ones included, embeds a marked one. */
  predicate NoUnmarkedEmbedsMarked(env: Env) {
    forall n :: n in env.decls ==>
      if n in env.willHave && env.decls[n].underlying.Struct? then
        forall f :: f in env.decls[n].underlying.fields ==> NoMarkedEmbedded(env, f.typ)
      else NoMarkedEmbedded(env, env.decls[n].underlying)
  }

  lemma {:induction false} EntriesSameNames(fields: seq<Field>, multiples: bool, hops: seq<Hop>, e: Entry)
    requires e in StructEntries(fields, multiples, hops)
    ensures exists d :: d in StructEntries(fields, false, []) && d.name == e.name
    decreases |fields|
  {
    if e in EmbeddedEntries(fields[0], multiples, hops) {
      assert EmbeddedEntries(fields[0], false, [])[0] in StructEntries(fields, false, []);
    } else {
      EntriesSameNames(fields[1..], multiples, hops, e);
    }
  }

  /** No struct has lost its marker since the file that declares its `Reset` was generated. */
  predicate MarkersKept(env: Env) {
    env.replaced <= env.willHave
  }

  predicate Unmarked(env: Env, level: seq<Entry>) {
    forall e :: e in level ==> e.name !in env.willHave
  }

  lemma {:induction false} NextUnmarked(env: Env, level: seq<Entry>)
    requires NoUnmarkedEmbedsMarked(env) && Unmarked(env, level)
    requires forall e :: e in level ==> e.name in env.decls
    ensures Unmarked(env, LevelNext(env, level))
    decreases |level|
  {
    if |level| > 0 {
      NextUnmarked(env, level[1..]);
      assert level[0] in level;
      forall e | e in EntryNext(env, level[0]) ensures e.name !in env.willHave {
        EntriesSameNames(Underlying(env, level[0].name).fields, level[0].multiples, level[0].hops, e);
      }
    }
  }

  lemma {:induction false} LevelSame(env: Env, level: seq<Entry>)
    requires MarkersKept(env) && Unmarked(env, level)
    ensures LevelHits(AfterRun(env), level) == LevelHits(env, level)
    ensures LevelNext(AfterRun(env), level) == LevelNext(env, level)
    decreases |level|
  {
    if |level| > 0 {
      assert level[0] in level;
      LevelSame(env, level[1..]);
    }
  }

  lemma {:induction false} FreshSame(env: Env, level: seq<Entry>, seen: set<string>)
    ensures Fresh(AfterRun(env), level, seen) == Fresh(env, level, seen)
    decreases |level|
  {
    if |level| > 0 { FreshSame(env, level[1..], seen); }
  }

  lemma UnmarkedNames(env: Env, level: seq<Entry>, other: seq<Entry>)
    requires Unmarked(env, level) && LevelNames(other) <= LevelNames(level)
    ensures Unmarked(env, other)
  {
    forall e | e in other ensures e.name !in env.willHave {
      assert e.name in LevelNames(other);
    }
  }

  lemma {:induction false} SearchSame(env: Env, level: seq<Entry>, seen: set<string>)
    requires MarkersKept(env) && NoUnmarkedEmbedsMarked(env) && Unmarked(env, level)
    ensures Search(AfterRun(env), level, seen) == Search(env, level, seen)
    decreases env.decls.Keys - seen
  {
    FreshSame(env, level, seen);
    assert AfterRun(env).decls.Keys == env.decls.Keys;
    var current := Fresh(env, level, seen);
    if |current| > 0 {
      LevelSame(env, current);
      NextUnmarked(env, current);
      var next := Consolidate(LevelNext(env, current));
      UnmarkedNames(env, LevelNext(env, current), next);
      assert current[0] in current && current[0].name in LevelNames(current);
      SearchSame(env, next, seen + LevelNames(current));
    }
  }

  lemma AnswerSame(env: Env, t: GoType)
    requires MarkersKept(env) && NoUnmarkedEmbedsMarked(env) && NoMarkedEmbedded(env, t)
    ensures HasOrWillHaveReset(AfterRun(env), t) == HasOrWillHaveReset(env, t)
  {
    var inner := if t.Pointer? then t.elem else t;
    match inner
    case Named(n) => if n !in env.willHave { SearchSame(env, [Entry(n, false, [])], {}); }
    case Struct(fields) =>
      var level := StructEntries(fields, false, []);
      UnmarkedNames(env, level, Consolidate(level));
      SearchSame(env, Consolidate(level), {});
    case _ =>
  }

  lemma {:induction false} AnswersSame(env: Env, fuel: nat, t: GoType)
    requires MarkersKept(env) && NoUnmarkedEmbedsMarked(env) && NoMarkedEmbedded(env, t)
    ensures SameAnswers(env, AfterRun(env), fuel, t)
    decreases fuel, t
  {
    match t
    case Pointer(elem) =>
      AnswerSame(env, t);
      AnswersSame(env, fuel, elem);
    case Named(n) =>
      AnswerSame(env, t);
      if !HasOrWillHaveReset(env, t) && fuel > 0 { AnswersSame(env, fuel - 1, Underlying(env, n)); }
    case Struct(fields) =>
      forall f | f in fields ensures SameAnswers(env, AfterRun(env), fuel, f.typ) { AnswersSame(env, fuel, f.typ); }
    case _ =>
  }

  lemma CardKeys(env: Env, after: Env)
    requires after.decls.Keys == env.decls.Keys
    ensures |after.decls| == |env.decls|
  {
  }

  /** A second run generates the same method exactly when the methods of the first change none of its answers. */
  lemma SecondRunSameIff(env: Env, n: string)
    requires WellFormedEnv(env)
    requires n in env.decls && MethodBody(env, n).Some?
    ensures MethodBody(AfterRun(env), n) == MethodBody(env, n) <==>
      forall f :: f in Underlying(env, n).fields ==> SameAnswers(env, AfterRun(env), |env.decls| + 1, f.typ)
  {
    assert AfterRun(env).decls.Keys == env.decls.Keys;
    CardKeys(env, AfterRun(env));
    assert WellFormedType(Underlying(env, n));
    SameStructIff(env, AfterRun(env), |env.decls| + 1, Recv, Underlying(env, n).fields);
  }

  /** Idempotence: with no marked struct embedded in an unmarked one, a second run generates the same methods. */
  lemma SecondRunSame(env: Env, n: string)
    requires WellFormedEnv(env) && MarkersKept(env) && NoUnmarkedEmbedsMarked(env)
    requires n in env.decls && n in env.willHave && MethodBody(env, n).Some?
    ensures MethodBody(AfterRun(env), n) == MethodBody(env, n)
  {
    var fields := Underlying(env, n).fields;
    forall f | f in fields ensures SameAnswers(env, AfterRun(env), |env.decls| + 1, f.typ) {
      AnswersSame(env, |env.decls| + 1, f.typ);
    }
    SecondRunSameIff(env, n);
  }

  // The excluded case.

  /** `type U struct { M; X int }` unmarked, with `M` marked, in a marked `T struct { F U }`. */
  function EmbeddingEnv(): Env {
    Env(map[
          "M" := Decl(Struct([Field("A", Basic(Numeric), false)]), Absent),
          "U" := Decl(Struct([Field("M", Named("M"), true), Field("X", Basic(Numeric), false)]), Absent),
          "T" := Decl(Struct([Field("F", Named("U"), false)]), Absent)],
        {"M", "T"}, {})
  }

  const EMBEDDED_FIELD := Field("M", Named("M"), true)
  const PLAIN_FIELD := Field("X", Basic(Numeric), false)

  const EMBEDDED := Entry("M", false, [Hop("M", false)])

  lemma SearchEmbedding(env: Env)
    requires env == EmbeddingEnv() || env == AfterRun(EmbeddingEnv())
    ensures ResetHits(env, Named("U")) == Search(env, [EMBEDDED], {"U"})
  {
    var fields := [EMBEDDED_FIELD, PLAIN_FIELD];
    assert Underlying(env, "U") == Struct(fields) && EmbedsOnly(fields, 0);
    assert EmbeddedEntries(EMBEDDED_FIELD, false, []) == [EMBEDDED] by { assert [] + EMBEDDED.hops == EMBEDDED.hops; }
    assert IsPlain(env, "U") by { assert |"M"| != |"Reset"|; }
    EmbeddedDecides(env, "U", 0, EMBEDDED);
  }

  lemma SearchMarked(env: Env)
    requires env == EmbeddingEnv() || env == AfterRun(EmbeddingEnv())
    ensures Search(env, [EMBEDDED], {"U"}) ==
      if env == AfterRun(EmbeddingEnv()) then [MethodHit(Niladic, EMBEDDED)] else []
  {
    var fields := [Field("A", Basic(Numeric), false)];
    assert Underlying(env, "M") == Struct(fields);
    SearchPlain(env, EMBEDDED, {"U"});
    NoEntries(fields, false, EMBEDDED.hops);
    assert Consolidate([]) == [];
    SearchNothing(env, {"U"} + {"M"});
  }

  lemma EmitTwo(env: Env, fuel: nat, p: Path, f: Field, g: Field)
    requires Emit(env, fuel, Sel(p, f.name), f.typ).Some? && Emit(env, fuel, Sel(p, g.name), g.typ).Some?
    ensures EmitStruct(env, fuel, p, [f, g]) ==
      Some(Emit(env, fuel, Sel(p, f.name), f.typ).value + Emit(env, fuel, Sel(p, g.name), g.typ).value)
  {
    assert [f, g][..1] == [f];
    EmitOne(env, fuel, p, f);
  }

  lemma EmbeddingAnswers()
    ensures !HasOrWillHaveReset(EmbeddingEnv(), Named("U"))
    ensures HasOrWillHaveReset(AfterRun(EmbeddingEnv()), Named("U"))
  {
    var env, after := EmbeddingEnv(), AfterRun(EmbeddingEnv());
    SearchEmbedding(env);
    SearchEmbedding(after);
    SearchMarked(env);
    SearchMarked(after);
    assert env.decls["M"].reset != after.decls["M"].reset;
  }

  lemma EmbeddingTypes(env: Env)
    requires env == EmbeddingEnv() || env == AfterRun(EmbeddingEnv())
    ensures Underlying(env, "T") == Struct([Field("F", Named("U"), false)])
    ensures Underlying(env, "U") == Struct([EMBEDDED_FIELD, PLAIN_FIELD])
    ensures "M" in env.willHave && env.decls.Keys == EmbeddingEnv().decls.Keys
  {
  }

  lemma BodyOfStruct(env: Env, n: string, fields: seq<Field>)
    requires Underlying(env, n) == Struct(fields)
    ensures MethodBody(env, n) == EmitStruct(env, |env.decls| + 1, Recv, fields)
  {
  }

  lemma DiffersWhenPromoted(env: Env, after: Env, field: Field, fuel: nat)
    requires fuel > 0 && field.typ == Named("U")
    requires Underlying(env, "U") == Struct([EMBEDDED_FIELD, PLAIN_FIELD])
    requires "M" in env.willHave
    requires !HasOrWillHaveReset(env, Named("U")) && HasOrWillHaveReset(after, Named("U"))
    ensures var f := Sel(Recv, field.name);
      && EmitStruct(env, fuel, Recv, [field]) == Some([CallReset(Sel(f, "M"), Named("M")), SetZero(Sel(f, "X"))])
      && EmitStruct(after, fuel, Recv, [field]) == Some([CallReset(f, Named("U"))])
  {
    var f := Sel(Recv, field.name);
    EmitOne(env, fuel, Recv, field);
    EmitOne(after, fuel, Recv, field);
    assert Emit(env, fuel - 1, Sel(f, "M"), Named("M")) == Some([CallReset(Sel(f, "M"), Named("M"))]) by {
      assert HasOrWillHaveReset(env, Named("M"));
    }
    assert Emit(env, fuel - 1, Sel(f, "X"), Basic(Numeric)) == Some([SetZero(Sel(f, "X"))]);
    EmitTwo(env, fuel - 1, f, EMBEDDED_FIELD, PLAIN_FIELD);
    var inlined := EmitStruct(env, fuel - 1, f, [EMBEDDED_FIELD, PLAIN_FIELD]);
    assert Emit(env, fuel, f, Named("U")) == Emit(env, fuel - 1, f, Underlying(env, "U")) == inlined;
    var call, zero := CallReset(Sel(f, "M"), Named("M")), SetZero(Sel(f, "X"));
    assert inlined == Some([call] + [zero]);
    assert [call] + [zero] == [call, zero];
  }

  /**
   The first run resets both fields of `F`; the second calls the `Reset` promoted from `M`, which leaves `F.X` alone.
   */
  lemma SecondRunDiffers()
    ensures var f := Sel(Recv, "F");
      && MethodBody(EmbeddingEnv(), "T") == Some([CallReset(Sel(f, "M"), Named("M")), SetZero(Sel(f, "X"))])
      && MethodBody(AfterRun(EmbeddingEnv()), "T") == Some([CallReset(f, Named("U"))])
  {
    var env, after := EmbeddingEnv(), AfterRun(EmbeddingEnv());
    var field := Field("F", Named("U"), false);
    EmbeddingAnswers();
    EmbeddingTypes(env);
    EmbeddingTypes(after);
    CardKeys(env, after);
    BodyOfStruct(env, "T", [field]);
    BodyOfStruct(after, "T", [field]);
    DiffersWhenPromoted(env, after, field, |env.decls| + 1);
  }
}
