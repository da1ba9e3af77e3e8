/**
 The type-directed compiler of `cmd/reset`: from a Go type and the path of a field to reset statements.
 Go stops only if the descent through named types stops, so the descent is given `fuel`, the number of named types
 it may still open. `EmissionStopsIff` says exactly when some fuel is enough.
 */
module ResetGen {
  import opened Wrappers
  import opened GoTypes

  /** An access expression: the receiver, `p.f` or `(*p)`. */
  datatype Path = Recv | Sel(base: Path, field: string) | Deref(base: Path)

  datatype Stmt =
    | SetFalse(p: Path)
    | SetEmpty(p: Path)
    | SetZero(p: Path)
    | Truncate(p: Path)                        // p = p[:0]
    | Clear(p: Path)                           // clear(p)
    | IfNonNil(p: Path, body: seq<Stmt>)
    | CallReset(p: Path, typ: GoType)          // p.Reset(), with p of static type typ
    | IfResetter(p: Path)                      // if r, ok := p.(interface{ Reset() }); ok { r.Reset() }

  function EmitBasic(p: Path, kind: BasicKind): seq<Stmt> {
    match kind
    case Boolean => [SetFalse(p)]
    case String => [SetEmpty(p)]
    case Numeric => [SetZero(p)]
    case OtherBasic => []
  }

  /** The statements for one field of type `t` at `p`; `None` when more than `fuel` named types must be opened. */
  function Emit(env: Env, fuel: nat, p: Path, t: GoType): Option<seq<Stmt>>
    decreases fuel, t, 1
  {
    match t
    case Basic(kind) => Some(EmitBasic(p, kind))
    case Slice(_) => Some([Truncate(p)])
    case Map(_, _) => Some([Clear(p)])
    case Pointer(elem) =>
      if HasOrWillHaveReset(env, t) then Some([IfNonNil(p, [CallReset(p, t)])])
      else
        var body := Emit(env, fuel, Deref(p), elem);
        if body.None? then None else Some([IfNonNil(p, body.value)])
    case Named(n) =>
      if HasOrWillHaveReset(env, t) then Some([CallReset(p, t)])
      else if fuel == 0 then None
      else Emit(env, fuel - 1, p, Underlying(env, n))
    case Struct(fields) => EmitStruct(env, fuel, p, fields)
    case Interface(_) => Some([IfResetter(p)])
    case Untouched => Some([])
  }

  /** The statements for the fields, in declaration order. */
  function EmitStruct(env: Env, fuel: nat, p: Path, fields: seq<Field>): Option<seq<Stmt>>
    decreases fuel, fields, 0
  {
    if |fields| == 0 then Some([])
    else
      var last := |fields| - 1;
      var before := EmitStruct(env, fuel, p, fields[..last]);
      var f := fields[last];
      var here := Emit(env, fuel, Sel(p, f.name), f.typ);
      if before.None? || here.None? then None else Some(before.value + here.value)
  }

  lemma EmitOne(env: Env, fuel: nat, p: Path, f: Field)
    ensures EmitStruct(env, fuel, p, [f]) == Emit(env, fuel, Sel(p, f.name), f.typ)
  {
    assert [f][..0] == [];
    var here := Emit(env, fuel, Sel(p, f.name), f.typ);
    if here.Some? { assert [] + here.value == here.value; }
  }

  /** A pointer field becomes one guarded block. */
  lemma PointerShape(env: Env, fuel: nat, p: Path, t: GoType)
    requires t.Pointer? && Emit(env, fuel, p, t).Some?
    ensures !HasOrWillHaveReset(env, t) ==> Emit(env, fuel, Deref(p), t.elem).Some?
    ensures Emit(env, fuel, p, t).value ==
      [IfNonNil(p, if HasOrWillHaveReset(env, t) then [CallReset(p, t)] else Emit(env, fuel, Deref(p), t.elem).value)]
  {
  }

  // Termination.

  /** The named types the emission for `t` opens, directly below `t`. */
  function Opened(env: Env, t: GoType): set<string>
    decreases t, 1
  {
    match t
    case Pointer(elem) => if HasOrWillHaveReset(env, t) then {} else Opened(env, elem)
    case Named(n) => if HasOrWillHaveReset(env, t) then {} else {n}
    case Struct(fields) => OpenedByFields(env, fields)
    case _ => {}
  }

  function OpenedByFields(env: Env, fields: seq<Field>): set<string>
    decreases fields, 0
  {
    if |fields| == 0 then {}
    else OpenedByFields(env, fields[..|fields| - 1]) + Opened(env, fields[|fields| - 1].typ)
  }

  /** The named types the emission opens directly below the named type `n`. */
  function Opens(env: Env, n: string): set<string> {
    Opened(env, Underlying(env, n))
  }

  /** `c` is a chain of named types, each opened directly below the one before; the first is opened by `t`. */
  ghost predicate Chain(env: Env, t: GoType, c: seq<string>) {
    && (|c| > 0 ==> c[0] in Opened(env, t))
    && forall i, j :: 0 <= i && j == i + 1 && j < |c| ==> c[j] in Opens(env, c[i])
  }

  ghost predicate Repeats(c: seq<string>) {
    exists i, j :: 0 <= i < j < |c| && c[i] == c[j]
  }

  /** The emission for `t` can come back to a named type it is in the middle of opening. */
  ghost predicate HasOpenCycle(env: Env, t: GoType) {
    exists c :: Chain(env, t, c) && Repeats(c)
  }

  /** Opening `n` needs more fuel than is left. */
  predicate Starved(env: Env, fuel: nat, n: string) {
    fuel == 0 || Emit(env, fuel - 1, Recv, Underlying(env, n)).None?
  }

  /** Whether the emission stops does not depend on the access path. */
  lemma {:induction false} EmitPathIrrelevant(env: Env, fuel: nat, p: Path, t: GoType)
    ensures Emit(env, fuel, p, t).None? <==> Emit(env, fuel, Recv, t).None?
    decreases fuel, t, 1
  {
    match t
    case Pointer(elem) =>
      EmitPathIrrelevant(env, fuel, Deref(p), elem);
      EmitPathIrrelevant(env, fuel, Deref(Recv), elem);
    case Named(n) => if fuel > 0 { EmitPathIrrelevant(env, fuel - 1, p, Underlying(env, n)); }
    case Struct(fields) => EmitStructPathIrrelevant(env, fuel, p, fields);
    case _ =>
  }

  lemma {:induction false} EmitStructPathIrrelevant(env: Env, fuel: nat, p: Path, fields: seq<Field>)
    ensures EmitStruct(env, fuel, p, fields).None? <==> EmitStruct(env, fuel, Recv, fields).None?
    decreases fuel, fields, 0
  {
    if |fields| > 0 {
      var last := |fields| - 1;
      EmitStructPathIrrelevant(env, fuel, p, fields[..last]);
      EmitPathIrrelevant(env, fuel, Sel(p, fields[last].name), fields[last].typ);
      EmitPathIrrelevant(env, fuel, Sel(Recv, fields[last].name), fields[last].typ);
    }
  }

  lemma {:induction false} EmitNoneIff(env: Env, fuel: nat, p: Path, t: GoType)
    ensures Emit(env, fuel, p, t).None? <==>
      exists n :: n in Opened(env, t) && Starved(env, fuel, n)
    decreases fuel, t, 1
  {
    match t
    case Pointer(elem) => if !HasOrWillHaveReset(env, t) { EmitNoneIff(env, fuel, Deref(p), elem); }
    case Named(n) =>
      if !HasOrWillHaveReset(env, t) {
        assert Opened(env, t) == {n};
        if fuel > 0 { EmitPathIrrelevant(env, fuel - 1, p, Underlying(env, n)); }
        assert Emit(env, fuel, p, t).None? <==> Starved(env, fuel, n);
      }
    case Struct(fields) => EmitStructNoneIff(env, fuel, p, fields);
    case _ =>
  }

  lemma {:induction false} EmitStructNoneIff(env: Env, fuel: nat, p: Path, fields: seq<Field>)
    ensures EmitStruct(env, fuel, p, fields).None? <==>
      exists n :: n in OpenedByFields(env, fields) && Starved(env, fuel, n)
    decreases fuel, fields, 0
  {
    if |fields| > 0 {
      var last := |fields| - 1;
      EmitStructNoneIff(env, fuel, p, fields[..last]);
      EmitNoneIff(env, fuel, Sel(p, fields[last].name), fields[last].typ);
      assert OpenedByFields(env, fields) == OpenedByFields(env, fields[..last]) + Opened(env, fields[last].typ);
    }
  }

  /** Emission runs out of fuel exactly when there is a chain one longer than the fuel. */
  lemma EmitNoneIffLongChain(env: Env, fuel: nat, p: Path, t: GoType)
    ensures Emit(env, fuel, p, t).None? <==> exists c :: Chain(env, t, c) && |c| == fuel + 1
  {
    if Emit(env, fuel, p, t).None? {
      var c := StarvedChain(env, fuel, p, t);
    }
    if c :| Chain(env, t, c) && |c| == fuel + 1 {
      ChainStarves(env, fuel, p, t, c);
    }
  }

  lemma {:induction false} StarvedChain(env: Env, fuel: nat, p: Path, t: GoType) returns (c: seq<string>)
    requires Emit(env, fuel, p, t).None?
    ensures Chain(env, t, c) && |c| == fuel + 1
    decreases fuel
  {
    EmitNoneIff(env, fuel, p, t);
    var n :| n in Opened(env, t) && Starved(env, fuel, n);
    var rest := [];
    if fuel > 0 { rest := StarvedChain(env, fuel - 1, Recv, Underlying(env, n)); }
    c := [n] + rest;
    ChainCons(env, t, n, rest);
  }

  lemma ChainCons(env: Env, t: GoType, n: string, rest: seq<string>)
    requires n in Opened(env, t) && Chain(env, Underlying(env, n), rest)
    ensures Chain(env, t, [n] + rest)
  {
  }

  lemma ChainTail(env: Env, t: GoType, c: seq<string>)
    requires Chain(env, t, c) && |c| > 0
    ensures Chain(env, Underlying(env, c[0]), c[1..])
  {
  }

  lemma {:induction false} ChainStarves(env: Env, fuel: nat, p: Path, t: GoType, c: seq<string>)
    requires Chain(env, t, c) && |c| == fuel + 1
    ensures Emit(env, fuel, p, t).None?
    decreases fuel
  {
    EmitNoneIff(env, fuel, p, t);
    if fuel > 0 {
      ChainTail(env, t, c);
      ChainStarves(env, fuel - 1, Recv, Underlying(env, c[0]), c[1..]);
    }
    assert c[0] in Opened(env, t) && Starved(env, fuel, c[0]);
  }

  lemma {:induction false} NoRepeatsIsShort(c: seq<string>, names: set<string>)
    requires forall i :: 0 <= i < |c| ==> c[i] in names
    requires !Repeats(c)
    ensures |c| <= |names|
    decreases |c|
  {
    if |c| > 0 {
      var last := |c| - 1;
      NoRepeatsIsShort(c[..last], names - {c[last]});
    }
  }

  /** Round the cycle once more: `d` ends with the type at which `c` comes back to position `i`. */
  lemma ChainRound(env: Env, t: GoType, c: seq<string>, i: nat, j: nat, d: seq<string>)
    requires Chain(env, t, c) && i < j < |c| && c[i] == c[j]
    requires Chain(env, t, d) && |d| > 0 && d[|d| - 1] == c[j]
    ensures Chain(env, t, d + c[i + 1..j + 1])
  {
    var r := d + c[i + 1..j + 1];
    forall k, l | 0 <= k && l == k + 1 && l < |r| ensures r[l] in Opens(env, r[k]) {
      if l >= |d| {
        var m := l - |d| + i;
        assert c[m + 1] in Opens(env, c[m]);
        assert r[l] == c[m + 1] && r[k] == c[m];
      }
    }
  }

  /** A chain that repeats can be prolonged round its cycle to any length. */
  lemma {:induction false} PumpChain(env: Env, t: GoType, c: seq<string>, i: nat, j: nat, len: nat)
      returns (d: seq<string>)
    requires Chain(env, t, c) && i < j < |c| && c[i] == c[j]
    ensures Chain(env, t, d) && |d| >= len && |d| > j && d[|d| - 1] == c[j]
    decreases len
  {
    if len == 0 {
      d := c[..j + 1];
    } else {
      var e := PumpChain(env, t, c, i, j, len - 1);
      d := e + c[i + 1..j + 1];
      ChainRound(env, t, c, i, j, e);
    }
  }

  /**
   The emission for `t` stops exactly when it never re-enters a named type, and then opening as many levels as
   there are declared types (and one undeclared type) is enough.
   */
  lemma EmissionStopsIff(env: Env, p: Path, t: GoType)
    ensures (exists fuel: nat :: Emit(env, fuel, p, t).Some?) <==> !HasOpenCycle(env, t)
    ensures !HasOpenCycle(env, t) <==> Emit(env, |env.decls| + 1, p, t).Some?
  {
    var enough := |env.decls| + 1;
    if HasOpenCycle(env, t) {
      var c :| Chain(env, t, c) && Repeats(c);
      var i, j :| 0 <= i < j < |c| && c[i] == c[j];
      forall fuel: nat ensures Emit(env, fuel, p, t).None? {
        var d := PumpChain(env, t, c, i, j, fuel + 1);
        assert Chain(env, t, d[..fuel + 1]);
        EmitNoneIffLongChain(env, fuel, p, t);
      }
      assert Emit(env, enough, p, t).None?;
    } else {
      EmitNoneIffLongChain(env, enough, p, t);
      if Emit(env, enough, p, t).None? {
        var c :| Chain(env, t, c) && |c| == enough + 1;
        var declared := c[..enough];
        // A type that is not declared opens nothing, so every link but the last is declared.
        forall k | 0 <= k < |declared| ensures declared[k] in env.decls.Keys {
          assert c[k + 1] in Opens(env, c[k]);
        }
        assert !Repeats(declared);
        NoRepeatsIsShort(declared, env.decls.Keys);
        assert false;
      }
      assert Emit(env, enough, p, t).Some?;
    }
  }

  /** More fuel never changes the statements. */
  lemma {:induction false} EmitMonotone(env: Env, fuel: nat, more: nat, p: Path, t: GoType)
    requires fuel <= more && Emit(env, fuel, p, t).Some?
    ensures Emit(env, more, p, t) == Emit(env, fuel, p, t)
    decreases fuel, t, 1
  {
    match t
    case Pointer(elem) => if !HasOrWillHaveReset(env, t) { EmitMonotone(env, fuel, more, Deref(p), elem); }
    case Named(n) => if !HasOrWillHaveReset(env, t) { EmitMonotone(env, fuel - 1, more - 1, p, Underlying(env, n)); }
    case Struct(fields) => EmitStructMonotone(env, fuel, more, p, fields);
    case _ =>
  }

  lemma {:induction false} EmitStructMonotone(env: Env, fuel: nat, more: nat, p: Path, fields: seq<Field>)
    requires fuel <= more && EmitStruct(env, fuel, p, fields).Some?
    ensures EmitStruct(env, more, p, fields) == EmitStruct(env, fuel, p, fields)
    decreases fuel, fields, 0
  {
    if |fields| > 0 {
      var last := |fields| - 1;
      EmitStructMonotone(env, fuel, more, p, fields[..last]);
      EmitMonotone(env, fuel, more, Sel(p, fields[last].name), fields[last].typ);
    }
  }

  /** The body generated for the marked struct `n`; `None` when the generator does not stop on it. */
  function MethodBody(env: Env, n: string): Option<seq<Stmt>> {
    match Underlying(env, n)
    case Struct(fields) => EmitStruct(env, |env.decls| + 1, Recv, fields)
    case _ => None
  }
}
