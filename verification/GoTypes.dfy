/**
 The Go types seen by the `Reset()` generator (`cmd/reset`), and the method-set question it asks of them.
 A named type is represented by its qualified name; `Env` maps names to declarations.
 */
module GoTypes {
  datatype BasicKind = Boolean | String | Numeric | OtherBasic

  /** How the name `Reset` is declared: not at all, with the signature `func()`, or with another signature. */
  datatype ResetDecl = Absent | Niladic | OtherSignature

  datatype Field = Field(name: string, typ: GoType, embedded: bool)

  datatype GoType =
    | Basic(kind: BasicKind)
    | Slice(elem: GoType)
    | Map(key: GoType, elem: GoType)
    | Pointer(elem: GoType)
    | Named(name: string)
    | Struct(fields: seq<Field>)
    | Interface(reset: ResetDecl)
    | Untouched  // arrays, channels, functions

  /** `reset` says how `Reset` is declared on the type or on a pointer to it. */
  datatype Decl = Decl(underlying: GoType, reset: ResetDecl)

  /**
   `willHave` holds the marked structs, whose `Reset` is generated in this run. `replaced` holds the types whose `Reset`
   stands in a generated file that this run replaces.
   */
  datatype Env = Env(decls: map<string, Decl>, willHave: set<string>, replaced: set<string>)

  /** The declarations after the run: marked structs declare `Reset()`, and what else the old files declared is gone. */
  function AfterRun(env: Env): Env {
    Env(
      map n | n in env.decls ::
        if n in env.willHave then env.decls[n].(reset := Niladic)
        else if n in env.replaced then env.decls[n].(reset := Absent)
        else env.decls[n],
      env.willHave, env.willHave)
  }

  function Underlying(env: Env, n: string): GoType {
    if n in env.decls then env.decls[n].underlying else Untouched
  }

  predicate IsInterface(env: Env, t: GoType) {
    t.Interface? || (t.Named? && Underlying(env, t.name).Interface?)
  }

  // Method sets. `go/types` searches embedded structs breadth-first; the shallowest depth at which the name
  // `Reset` occurs decides, and it decides for a method only when that occurrence is unique there.

  /** The selection of an embedded field, through a pointer when the field embeds `*T`. */
  datatype Hop = Hop(field: string, deref: bool)

  /**
   A named type met in the search, embedded along `hops`; `multiples` when it was reached along several paths of the
   same depth.
   */
  datatype Entry = Entry(name: string, multiples: bool, hops: seq<Hop>)

  datatype Hit = MethodHit(decl: ResetDecl, owner: Entry) | FieldHit

  /** The type embedded by a field of type `T` or `*T`. */
  function EmbeddedEntries(f: Field, multiples: bool, hops: seq<Hop>): seq<Entry> {
    if !f.embedded then []
    else if f.typ.Named? then [Entry(f.typ.name, multiples, hops + [Hop(f.name, false)])]
    else if f.typ.Pointer? && f.typ.elem.Named? then [Entry(f.typ.elem.name, multiples, hops + [Hop(f.name, true)])]
    else []
  }

  function StructEntries(fields: seq<Field>, multiples: bool, hops: seq<Hop>): seq<Entry> {
    if |fields| == 0 then []
    else EmbeddedEntries(fields[0], multiples, hops) + StructEntries(fields[1..], multiples, hops)
  }

  function FieldHits(fields: seq<Field>): seq<Hit> {
    if |fields| == 0 then []
    else (if fields[0].name == "Reset" then [FieldHit] else []) + FieldHits(fields[1..])
  }

  function MethodHits(decl: ResetDecl, owner: Entry): seq<Hit> {
    if decl.Absent? then [] else [MethodHit(decl, owner)]
  }

  /** What one entry contributes at its own depth. */
  function EntryHits(env: Env, e: Entry): seq<Hit> {
    if e.name !in env.decls then []
    else
      MethodHits(env.decls[e.name].reset, e) +
      match Underlying(env, e.name)
      case Struct(fields) => FieldHits(fields)
      case Interface(decl) => MethodHits(decl, e)
      case _ => []
  }

  function EntryNext(env: Env, e: Entry): seq<Entry> {
    match Underlying(env, e.name)
    case Struct(fields) => StructEntries(fields, e.multiples, e.hops)
    case _ => []
  }

  function LevelHits(env: Env, level: seq<Entry>): seq<Hit> {
    if |level| == 0 then [] else EntryHits(env, level[0]) + LevelHits(env, level[1..])
  }

  function LevelNext(env: Env, level: seq<Entry>): seq<Entry> {
    if |level| == 0 then [] else EntryNext(env, level[0]) + LevelNext(env, level[1..])
  }

  function LevelNames(level: seq<Entry>): set<string> {
    set e | e in level :: e.name
  }

  /** Merges entries of the same name into one with `multiples` set. */
  function Consolidate(level: seq<Entry>): (r: seq<Entry>)
    ensures LevelNames(r) == LevelNames(level)
  {
    if |level| == 0 then []
    else
      var rest := Consolidate(level[1..]);
      assert level == [level[0]] + level[1..];
      assert LevelNames(level) == {level[0].name} + LevelNames(level[1..]);
      if level[0].name in LevelNames(rest) then MarkMultiples(rest, level[0].name)
      else
        assert LevelNames([level[0]] + rest) == {level[0].name} + LevelNames(rest);
        [level[0]] + rest
  }

  function MarkMultiples(level: seq<Entry>, name: string): (r: seq<Entry>)
    ensures |r| == |level|
    ensures forall i :: 0 <= i < |r| ==>
      r[i] == level[i].(multiples := level[i].multiples || level[i].name == name)
    ensures LevelNames(r) == LevelNames(level)
  {
    var r := seq(|level|, i requires 0 <= i < |level| =>
      level[i].(multiples := level[i].multiples || level[i].name == name));
    assert forall i :: 0 <= i < |r| ==> r[i].name == level[i].name;
    assert forall x :: x in LevelNames(r) ==> x in LevelNames(level);
    assert forall x :: x in LevelNames(level) ==> x in LevelNames(r) by {
      forall x | x in LevelNames(level) ensures x in LevelNames(r) {
        var i :| 0 <= i < |level| && level[i].name == x;
        assert r[i] in r;
      }
    }
    r
  }

  /** The entries of a level whose types are declared and were not met at a shallower depth. */
  function Fresh(env: Env, level: seq<Entry>, seen: set<string>): (r: seq<Entry>)
    ensures forall e :: e in r ==> e in level && e.name in env.decls && e.name !in seen
  {
    if |level| == 0 then []
    else
      (if level[0].name in env.decls && level[0].name !in seen then [level[0]] else []) + Fresh(env, level[1..], seen)
  }

  /** Where the name `Reset` occurs at the shallowest depth at which the search that starts with `level` meets it. */
  function Search(env: Env, level: seq<Entry>, seen: set<string>): seq<Hit>
    decreases env.decls.Keys - seen
  {
    var current := Fresh(env, level, seen);
    if |current| == 0 then []
    else
      var hits := LevelHits(env, current);
      if |hits| > 0 then hits
      else
        assert current[0] in current && current[0].name in LevelNames(current);
        Search(env, Consolidate(LevelNext(env, current)), seen + LevelNames(current))
  }

  function ResetHits(env: Env, t: GoType): seq<Hit> {
    match t
    case Named(n) => Search(env, [Entry(n, false, [])], {})
    case Struct(fields) =>
      if |FieldHits(fields)| > 0 then FieldHits(fields)
      else Search(env, Consolidate(StructEntries(fields, false, [])), {})
    case _ => []
  }

  /** The occurrence is the only one, and a method of signature `func()`. */
  predicate FindsReset(hits: seq<Hit>) {
    |hits| == 1 && hits[0].MethodHit? && hits[0].decl.Niladic? && !hits[0].owner.multiples
  }

  /** `hasResetMethod` of `T` or of `*T`, for a type `T` that is not a pointer. */
  predicate MethodSetHasReset(env: Env, t: GoType) {
    if t.Interface? then t.reset.Niladic? else FindsReset(ResetHits(env, t))
  }

  /** The type whose methods are called on a `t`: `T` for a `*T`. */
  function Receiver(t: GoType): GoType {
    if t.Pointer? then t.elem else t
  }

  /** `hasOrWillHaveReset`: the generator calls `Reset()` on such a field instead of descending into it. */
  predicate HasOrWillHaveReset(env: Env, t: GoType) {
    match t
    case Pointer(elem) =>
      || (!IsInterface(env, elem) && MethodSetHasReset(env, elem))
      || (elem.Named? && elem.name in env.willHave)
    case Named(n) => MethodSetHasReset(env, t) || n in env.willHave
    case _ => MethodSetHasReset(env, t)
  }

  // What the search amounts to where one level is enough.

  predicate HasFieldReset(t: GoType) {
    t.Struct? && exists f :: f in t.fields && f.name == "Reset"
  }

  lemma {:induction false} FieldHitsMean(fields: seq<Field>)
    ensures FieldHits(fields) != [] <==> exists f :: f in fields && f.name == "Reset"
  {
    if |fields| > 0 {
      assert fields == [fields[0]] + fields[1..];
      FieldHitsMean(fields[1..]);
    }
  }

  lemma {:induction false} NoEntries(fields: seq<Field>, multiples: bool, hops: seq<Hop>)
    requires forall f :: f in fields ==> !f.embedded
    ensures StructEntries(fields, multiples, hops) == []
  {
    if |fields| > 0 { NoEntries(fields[1..], multiples, hops); }
  }

  lemma SearchNothing(env: Env, seen: set<string>)
    ensures Search(env, [], seen) == []
  {
    assert Fresh(env, [], seen) == [];
  }

  /** A declared type, reached anew, that is no interface and has no field `Reset`. */
  predicate IsPlain(env: Env, n: string) {
    n in env.decls && !HasFieldReset(Underlying(env, n)) && !Underlying(env, n).Interface?
  }

  /** Its own `Reset` hides every promoted one; without one, what it embeds decides. */
  lemma SearchPlain(env: Env, e: Entry, seen: set<string>)
    requires IsPlain(env, e.name) && e.name !in seen
    ensures var reset := env.decls[e.name].reset;
      Search(env, [e], seen) ==
        if reset.Absent? then Search(env, Consolidate(EntryNext(env, e)), seen + {e.name})
        else [MethodHit(reset, e)]
  {
    assert Fresh(env, [e], seen) == [e] by { assert Fresh(env, [], seen) == []; }
    if Underlying(env, e.name).Struct? { FieldHitsMean(Underlying(env, e.name).fields); }
    assert LevelHits(env, [e]) == EntryHits(env, e) == MethodHits(env.decls[e.name].reset, e);
    assert LevelNext(env, [e]) == EntryNext(env, e);
    assert LevelNames([e]) == {e.name};
  }

  /** A type's own `Reset` hides every promoted one; without one, a type that embeds nothing has none. */
  lemma OwnResetDecides(env: Env, n: string)
    requires IsPlain(env, n)
    ensures var d := env.decls[n];
      && (!d.reset.Absent? ==> (MethodSetHasReset(env, Named(n)) <==> d.reset.Niladic?))
      && (d.reset.Absent? && (d.underlying.Struct? ==> forall f :: f in d.underlying.fields ==> !f.embedded) ==>
            !MethodSetHasReset(env, Named(n)))
  {
    var e, d := Entry(n, false, []), env.decls[n];
    SearchPlain(env, e, {});
    if d.reset.Absent? && (d.underlying.Struct? ==> forall f :: f in d.underlying.fields ==> !f.embedded) {
      if d.underlying.Struct? { NoEntries(d.underlying.fields, false, []); }
      assert Consolidate([]) == [];
      SearchNothing(env, {} + {n});
    }
  }

  /** Of the fields, only that at `i` may be embedded. */
  predicate EmbedsOnly(fields: seq<Field>, i: nat) {
    i < |fields| && forall j :: 0 <= j < |fields| && fields[j].embedded ==> j == i
  }

  lemma {:induction false} OneEntry(fields: seq<Field>, i: nat, multiples: bool, hops: seq<Hop>)
    requires EmbedsOnly(fields, i)
    ensures StructEntries(fields, multiples, hops) == EmbeddedEntries(fields[i], multiples, hops)
    decreases |fields|
  {
    if i == 0 {
      forall f | f in fields[1..] ensures !f.embedded {
        var j :| 0 <= j < |fields| - 1 && fields[1..][j] == f;
        assert fields[j + 1] == f;
      }
      NoEntries(fields[1..], multiples, hops);
    } else {
      assert EmbedsOnly(fields[1..], i - 1) by {
        forall j | 0 <= j < |fields| - 1 && fields[1..][j].embedded ensures j == i - 1 {
          assert fields[j + 1].embedded;
        }
      }
      OneEntry(fields[1..], i - 1, multiples, hops);
    }
  }

  /** A struct without a `Reset` of its own that embeds the one type `e` has what `e` has. */
  lemma EmbeddedDecides(env: Env, n: string, i: nat, e: Entry)
    requires IsPlain(env, n) && env.decls[n].reset.Absent? && Underlying(env, n).Struct?
    requires EmbedsOnly(Underlying(env, n).fields, i) && EmbeddedEntries(Underlying(env, n).fields[i], false, []) == [e]
    ensures ResetHits(env, Named(n)) == Search(env, [e], {n})
  {
    SearchPlain(env, Entry(n, false, []), {});
    OneEntry(Underlying(env, n).fields, i, false, []);
    assert Consolidate([e]) == [e] by { assert Consolidate([]) == [] && LevelNames([]) == {}; }
    assert {} + {n} == {n};
  }
}
