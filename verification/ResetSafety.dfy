/**
 When the generated `Reset()` panics, and when it never returns.
 */
module ResetSafety {
  import opened Wrappers
  import opened GoTypes
  import opened ResetGen
  import opened ResetSemantics
  import opened ResetTable
  import opened ResetNesting

  // Wherever the table leads, the heap holds values of the static types and every call has a method: what Go's type
  // checker guarantees of the package with the generated file.

  ghost predicate Typed(w: World, h: Heap, k: nat, t: GoType, a: Addr)
    decreases k, 4, t, 1
  {
    match t
    case Basic(kind) =>
      && (kind.Boolean? ==> a in h.cells && h.cells[a].BoolV?)
      && (kind.String? ==> a in h.cells && h.cells[a].StringV?)
      && (kind.Numeric? ==> a in h.cells && h.cells[a].NumberV?)
    case Slice(_) => a in h.cells && h.cells[a].SliceV?
    case Map(_, _) => a in h.cells && h.cells[a].MapV? && (h.cells[a].ref.Some? ==> h.cells[a].ref.value in h.maps)
    case Pointer(elem) =>
      && a in h.cells && h.cells[a].PointerV?
      && (h.cells[a].to.Some? ==>
            if HasOrWillHaveReset(w.env, t) then CallTyped(w, h, k, elem, h.cells[a].to)
            else Typed(w, h, k, elem, h.cells[a].to.value))
    case Named(n) =>
      if !HasOrWillHaveReset(w.env, t) then k == 0 || Typed(w, h, k - 1, Underlying(w.env, n), a)
      else if IsInterface(w.env, t) then InterfaceTyped(w, h, k, a, false)
      else CallTyped(w, h, k, t, Some(a))
    case Struct(fields) => FieldsTyped(w, h, k, fields, a)
    case Interface(_) => InterfaceTyped(w, h, k, a, true)
    case Untouched => true
  }

  ghost predicate FieldsTyped(w: World, h: Heap, k: nat, fields: seq<Field>, a: Addr)
    decreases k, 4, fields, 0
  {
    forall f :: f in fields ==> Typed(w, h, k, f.typ, Addr(a.root, a.path + [f.name]))
  }

  /** Without a type assertion in front, the dynamic type has the method. */
  ghost predicate InterfaceTyped(w: World, h: Heap, k: nat, a: Addr, asserted: bool)
    decreases k, 3
  {
    && a in h.cells && h.cells[a].InterfaceV?
    && var d := h.cells[a].dynamic;
      && (d.Some? && !d.value.typ.Pointer? ==> d.value.to.Some?)
      && (d.Some? && (asserted ==> Implements(w, d.value)) ==> CallTyped(w, h, k, Receiver(d.value.typ), d.value.to))
  }

  ghost predicate CallTyped(w: World, h: Heap, k: nat, t: GoType, to: Option<Addr>)
    decreases k, 2
  {
    var r := Resolve(w.env, h, t, to);
    !r.Illegal? && (r.Into? && k > 0 ==> EnterTyped(w, h, k - 1, r.call))
  }

  /** A marked struct is a struct on which the generator stops, and the receiver holds its fields. */
  ghost predicate EnterTyped(w: World, h: Heap, k: nat, c: Call)
    decreases k, 5
  {
    if c.name in w.env.willHave then
      MethodBody(w.env, c.name).Some? && Typed(w, h, k, Underlying(w.env, c.name), c.at)
    else InterfaceTyped(w, h, k, c.at, false)
  }

  lemma {:induction false} TypedShape(w: World, h: Heap, h': Heap, k: nat, t: GoType, a: Addr)
    requires SameShape(w, h, h') && MarksFixed(w, Marks(w, h, k, t, a)) && Typed(w, h, k, t, a)
    ensures Typed(w, h', k, t, a)
    decreases k, 4, t, 1
  {
    match t
    case Map(_, _) => assert Followed(a) in Marks(w, h, k, t, a);
    case Pointer(elem) =>
      assert Followed(a) in Marks(w, h, k, t, a);
      if h.cells[a].to.Some? {
        if HasOrWillHaveReset(w.env, t) { CallTypedShape(w, h, h', k, elem, h.cells[a].to); }
        else { TypedShape(w, h, h', k, elem, h.cells[a].to.value); }
      }
    case Named(n) =>
      if !HasOrWillHaveReset(w.env, t) {
        if k > 0 { TypedShape(w, h, h', k - 1, Underlying(w.env, n), a); }
      } else if IsInterface(w.env, t) {
        InterfaceTypedShape(w, h, h', k, a, false);
      } else {
        CallTypedShape(w, h, h', k, t, Some(a));
      }
    case Struct(fields) =>
      forall f | f in fields ensures Typed(w, h', k, f.typ, Addr(a.root, a.path + [f.name])) {
        assert Marks(w, h, k, f.typ, Addr(a.root, a.path + [f.name])) <= FieldMarks(w, h, k, fields, a);
        TypedShape(w, h, h', k, f.typ, Addr(a.root, a.path + [f.name]));
      }
    case Interface(_) => InterfaceTypedShape(w, h, h', k, a, true);
    case _ =>
  }

  lemma {:induction false} InterfaceTypedShape(w: World, h: Heap, h': Heap, k: nat, a: Addr, asserted: bool)
    requires SameShape(w, h, h') && InterfaceTyped(w, h, k, a, asserted)
    requires MarksFixed(w, InterfaceMarks(w, h, k, a, asserted))
    ensures InterfaceTyped(w, h', k, a, asserted)
    decreases k, 3
  {
    assert Followed(a) in InterfaceMarks(w, h, k, a, asserted);
    DynamicShape(w, h, h', a);
    var d := DynamicAt(h, a);
    if d.Some? && (asserted ==> Implements(w, d.value)) {
      CallTypedShape(w, h, h', k, Receiver(d.value.typ), d.value.to);
    }
  }

  lemma {:induction false} CallTypedShape(w: World, h: Heap, h': Heap, k: nat, t: GoType, to: Option<Addr>)
    requires SameShape(w, h, h') && MarksFixed(w, CallMarks(w, h, k, t, to)) && CallTyped(w, h, k, t, to)
    ensures CallTyped(w, h', k, t, to)
    decreases k, 2
  {
    ResolveShape(w, h, h', t, to);
    var r := Resolve(w.env, h, t, to);
    if r.Into? && k > 0 { EnterTypedShape(w, h, h', k - 1, r.call); }
  }

  lemma {:induction false} EnterTypedShape(w: World, h: Heap, h': Heap, k: nat, c: Call)
    requires SameShape(w, h, h') && MarksFixed(w, EnterMarks(w, h, k, c)) && EnterTyped(w, h, k, c)
    ensures EnterTyped(w, h', k, c)
    decreases k, 5
  {
    if c.name in w.env.willHave { TypedShape(w, h, h', k, Underlying(w.env, c.name), c.at); }
    else { InterfaceTypedShape(w, h, h', k, c.at, false); }
  }

  // A run in a typed heap that uses no nil interface or outer pointer does not panic.

  /** Typed however far the table leads, through fixed pointers, with no use of a nil there. */
  ghost predicate Safe(w: World, h: Heap, t: GoType, a: Addr) {
    && FollowsFixed(w, Table(w, h, t, a))
    && (forall k: nat :: Typed(w, h, k, t, a))
    && NilUse !in Table(w, h, t, a)
  }

  ghost predicate CallSafe(w: World, h: Heap, t: GoType, to: Option<Addr>) {
    && FollowsFixed(w, CallTable(w, h, t, to))
    && (forall k: nat :: CallTyped(w, h, k, t, to))
    && NilUse !in CallTable(w, h, t, to)
  }

  ghost predicate EnterSafe(w: World, h: Heap, c: Call) {
    && FollowsFixed(w, TableOf(w, h, c))
    && (forall k: nat :: EnterTyped(w, h, k, c))
    && NilUse !in TableOf(w, h, c)
  }

  ghost predicate ThroughSafe(w: World, h: Heap, a: Addr, asserted: bool) {
    && FollowsFixed(w, InterfaceTable(w, h, a, asserted))
    && (forall k: nat :: InterfaceTyped(w, h, k, a, asserted))
    && NilUse !in InterfaceTable(w, h, a, asserted)
  }

  lemma SafeShape(w: World, h: Heap, h': Heap, t: GoType, a: Addr)
    requires HandWrittenOk(w) && SameShape(w, h, h') && Safe(w, h, t, a)
    ensures Safe(w, h', t, a)
  {
    forall k: nat ensures Typed(w, h', k, t, a) {
      assert forall m :: m in Marks(w, h, k, t, a) ==> InTable(w, h, t, a, m);
      TypedShape(w, h, h', k, t, a);
    }
    TableShape(w, h, h', t, a);
  }

  lemma {:induction false} InvokeNoPanic(w: World, depth: nat, h: Heap, t: GoType, to: Option<Addr>)
    requires HandWrittenOk(w) && CallSafe(w, h, t, to)
    ensures Invoke(w, depth, h, t, to) != Panic
    decreases depth, 2
  {
    assert CallTyped(w, h, 0, t, to);
    CallTableIs(w, h, t, to);
    var r := Resolve(w.env, h, t, to);
    if r.Into? && depth > 0 {
      forall k: nat ensures EnterTyped(w, h, k, r.call) { assert CallTyped(w, h, k + 1, t, to); }
      EnterNoPanic(w, depth - 1, h, r.call);
    }
  }

  lemma {:induction false} EnterNoPanic(w: World, depth: nat, h: Heap, c: Call)
    requires HandWrittenOk(w) && EnterSafe(w, h, c)
    ensures Enter(w, depth, h, c) != Panic
    decreases depth, 5
  {
    assert EnterTyped(w, h, 0, c);
    if c.name in w.env.willHave {
      var fields := Underlying(w.env, c.name).fields;
      forall k: nat ensures FieldsTyped(w, h, k, fields, c.at) {
        assert EnterTyped(w, h, k, c);
        assert Typed(w, h, k, Underlying(w.env, c.name), c.at);
      }
      MarkedTable(w, h, c);
      StructNoPanic(w, depth, h, c.at, |w.env.decls| + 1, Recv, fields, c.at, MethodBody(w.env, c.name).value);
    } else {
      forall k: nat ensures InterfaceTyped(w, h, k, c.at, false) { assert EnterTyped(w, h, k, c); }
      ThroughTable(w, h, c);
      InterfaceTableIs(w, h, c.at, false);
      ThroughNoPanic(w, depth, h, c.at, false);
    }
  }

  lemma {:induction false} ThroughNoPanic(w: World, depth: nat, h: Heap, a: Addr, asserted: bool)
    requires HandWrittenOk(w) && ThroughSafe(w, h, a, asserted)
    requires DynamicAt(h, a).Some? && (asserted ==> Implements(w, DynamicAt(h, a).value))
    ensures InvokeThrough(w, depth, h, a) != Panic
    decreases depth, 3
  {
    var d := DynamicAt(h, a).value;
    InterfaceTableIs(w, h, a, asserted);
    forall k: nat ensures CallTyped(w, h, k, Receiver(d.typ), d.to) { assert InterfaceTyped(w, h, k, a, asserted); }
    InvokeNoPanic(w, depth, h, Receiver(d.typ), d.to);
  }

  lemma {:induction false} StructNoPanic(w: World, depth: nat, h: Heap, self: Addr, fuel: nat, p: Path,
      fields: seq<Field>, a: Addr, ss: seq<Stmt>)
    requires HandWrittenOk(w) && FollowsFixed(w, FieldTable(w, h, fields, a))
    requires EmitStruct(w.env, fuel, p, fields) == Some(ss)
    requires Eval(h, self, p) == Some(a) && PathFixed(w, h, self, p)
    requires forall k: nat :: FieldsTyped(w, h, k, fields, a)
    requires NilUse !in FieldTable(w, h, fields, a)
    ensures Run(w, depth, h, self, ss) != Panic
    decreases depth, 4, fuel, fields, 0
  {
    if |fields| > 0 {
      var last := |fields| - 1;
      var f, b := fields[last], Addr(a.root, a.path + [fields[last].name]);
      var before := EmitStruct(w.env, fuel, p, fields[..last]).value;
      var here := Emit(w.env, fuel, Sel(p, f.name), f.typ).value;
      FieldTableSnoc(w, h, fields, a);
      forall k: nat ensures FieldsTyped(w, h, k, fields[..last], a) && Typed(w, h, k, f.typ, b) {
        assert FieldsTyped(w, h, k, fields, a);
      }
      StructNoPanic(w, depth, h, self, fuel, p, fields[..last], a, before);
      RunAppend(w, depth, h, self, before, here);
      var first := Run(w, depth, h, self, before);
      if first.Done? {
        EmitStructEffect(w, depth, h, self, fuel, p, fields[..last], a, before, first.heap);
        EvalShape(w, h, first.heap, self, p);
        SafeShape(w, h, first.heap, f.typ, b);
        EmitNoPanic(w, depth, first.heap, self, fuel, Sel(p, f.name), f.typ, b, here);
      }
    }
  }

  lemma {:induction false} EmitNoPanic(w: World, depth: nat, h: Heap, self: Addr, fuel: nat, p: Path, t: GoType,
      a: Addr, ss: seq<Stmt>)
    requires HandWrittenOk(w)
    requires Emit(w.env, fuel, p, t) == Some(ss)
    requires Eval(h, self, p) == Some(a) && PathFixed(w, h, self, p)
    requires Safe(w, h, t, a)
    ensures Run(w, depth, h, self, ss) != Panic
    decreases depth, 4, fuel, t, 2
  {
    assert Typed(w, h, 0, t, a);
    if |ss| == 1 { RunOne(w, depth, h, self, ss[0]); assert ss == [ss[0]]; }
    match t
    case Pointer(_) => PointerNoPanic(w, depth, h, self, fuel, p, t, a, ss);
    case Named(_) => NamedNoPanic(w, depth, h, self, fuel, p, t, a, ss);
    case Struct(fields) =>
      forall k: nat ensures FieldsTyped(w, h, k, fields, a) { assert Typed(w, h, k, t, a); }
      assert forall k: nat :: Marks(w, h, k, t, a) == FieldMarks(w, h, k, fields, a);
      assert Table(w, h, t, a) == FieldTable(w, h, fields, a);
      StructNoPanic(w, depth, h, self, fuel, p, fields, a, ss);
    case Interface(_) =>
      forall k: nat ensures InterfaceTyped(w, h, k, a, true) { assert Typed(w, h, k, t, a); }
      assert InterfaceTyped(w, h, 0, a, true);
      assert forall k: nat :: Marks(w, h, k, t, a) == InterfaceMarks(w, h, k, a, true);
      assert Table(w, h, t, a) == InterfaceTable(w, h, a, true);
      var d := h.cells[a].dynamic;
      if d.Some? && Implements(w, d.value) { ThroughNoPanic(w, depth, h, a, true); }
    case _ =>
  }

  lemma PointerSafe(w: World, h: Heap, t: GoType, a: Addr)
    requires t.Pointer? && Safe(w, h, t, a)
    requires a in h.cells && h.cells[a].PointerV? && h.cells[a].to.Some?
    ensures var to := h.cells[a].to;
      a in w.fixed && if HasOrWillHaveReset(w.env, t) then CallSafe(w, h, t.elem, to) else Safe(w, h, t.elem, to.value)
  {
    var to := h.cells[a].to;
    PointerTable(w, h, t, a);
    assert Followed(a) in Table(w, h, t, a);
    if HasOrWillHaveReset(w.env, t) {
      forall k: nat ensures CallTyped(w, h, k, t.elem, to) { assert Typed(w, h, k, t, a); }
    } else {
      forall k: nat ensures Typed(w, h, k, t.elem, to.value) { assert Typed(w, h, k, t, a); }
    }
  }

  lemma {:induction false} PointerNoPanic(w: World, depth: nat, h: Heap, self: Addr, fuel: nat, p: Path, t: GoType,
      a: Addr, ss: seq<Stmt>)
    requires HandWrittenOk(w) && t.Pointer?
    requires Emit(w.env, fuel, p, t) == Some(ss)
    requires Eval(h, self, p) == Some(a) && PathFixed(w, h, self, p)
    requires Safe(w, h, t, a)
    ensures Run(w, depth, h, self, ss) != Panic
    decreases depth, 4, fuel, t, 1
  {
    PointerShape(w.env, fuel, p, t);
    assert Typed(w, h, 0, t, a);
    var to := h.cells[a].to;
    RunGuarded(w, depth, h, self, p, ss[0].body, a);
    if to.Some? {
      PointerSafe(w, h, t, a);
      if HasOrWillHaveReset(w.env, t) {
        RunPointerCall(w, depth, h, self, p, t, a);
        InvokeNoPanic(w, depth, h, t.elem, to);
      } else {
        EmitNoPanic(w, depth, h, self, fuel, Deref(p), t.elem, to.value, ss[0].body);
      }
    }
  }

  lemma NamedInterfaceSafe(w: World, h: Heap, t: GoType, a: Addr)
    requires t.Named? && HasOrWillHaveReset(w.env, t) && IsInterface(w.env, t) && Safe(w, h, t, a)
    ensures ThroughSafe(w, h, a, false) && DynamicAt(h, a).Some?
  {
    forall k: nat ensures InterfaceTyped(w, h, k, a, false) { assert Typed(w, h, k, t, a); }
    NamedInterfaceTable(w, h, t, a);
    InterfaceTableIs(w, h, a, false);
  }

  lemma NamedCallSafe(w: World, h: Heap, t: GoType, a: Addr)
    requires t.Named? && HasOrWillHaveReset(w.env, t) && !IsInterface(w.env, t) && Safe(w, h, t, a)
    ensures CallSafe(w, h, t, Some(a))
  {
    forall k: nat ensures CallTyped(w, h, k, t, Some(a)) { assert Typed(w, h, k, t, a); }
    NamedCallTable(w, h, t, a);
  }

  lemma {:induction false} NamedNoPanic(w: World, depth: nat, h: Heap, self: Addr, fuel: nat, p: Path, t: GoType,
      a: Addr, ss: seq<Stmt>)
    requires HandWrittenOk(w) && t.Named?
    requires Emit(w.env, fuel, p, t) == Some(ss)
    requires Eval(h, self, p) == Some(a) && PathFixed(w, h, self, p)
    requires Safe(w, h, t, a)
    ensures Run(w, depth, h, self, ss) != Panic
    decreases depth, 4, fuel, t, 1
  {
    if !HasOrWillHaveReset(w.env, t) {
      forall k: nat ensures Typed(w, h, k, Underlying(w.env, t.name), a) { assert Typed(w, h, k + 1, t, a); }
      NamedTable(w, h, t.name, a);
      EmitNoPanic(w, depth, h, self, fuel - 1, p, Underlying(w.env, t.name), a, ss);
    } else {
      RunOne(w, depth, h, self, ss[0]);
      if IsInterface(w.env, t) {
        NamedInterfaceSafe(w, h, t, a);
        ThroughNoPanic(w, depth, h, a, false);
      } else {
        NamedCallSafe(w, h, t, a);
        InvokeNoPanic(w, depth, h, t, Some(a));
      }
    }
  }

  /**
   The table of the call leads to a nil value of a named interface type that declares `Reset`, or to a nil pointer from
   which the method of an embedded field is selected.
   */
  ghost predicate MeetsNil(w: World, h: Heap, c: Call) {
    NilUse in TableOf(w, h, c)
  }

  /**
   A marked struct in a heap that respects the static types, where hand-written methods change no pointer followed.
   */
  ghost predicate Proper(w: World, h: Heap, c: Call) {
    && HandWrittenOk(w) && FollowsFixed(w, TableOf(w, h, c))
    && c.name in w.env.willHave && forall k: nat :: EnterTyped(w, h, k, c)
  }

  function CallOutcome(w: World, depth: nat, h: Heap, c: Call): Outcome {
    Invoke(w, depth, h, Named(c.name), Some(c.at))
  }

  /**
   With room for `depth` nested calls, a generated `Reset` returns exactly when calls nest no deeper than that and the
   table leads to no use of a nil. Otherwise the one of the two that holds alone decides how it fails.
   */
  lemma ResetReturnsIff(w: World, depth: nat, h: Heap, c: Call)
    requires Proper(w, h, c)
    ensures CallOutcome(w, depth, h, c).Done? <==> !Nests(w, h, depth, c) && !MeetsNil(w, h, c)
    ensures !MeetsNil(w, h, c) ==> (CallOutcome(w, depth, h, c).Deep? <==> Nests(w, h, depth, c))
    ensures !Nests(w, h, depth, c) ==> (CallOutcome(w, depth, h, c).Panic? <==> MeetsNil(w, h, c))
  {
    var out, t, to := CallOutcome(w, depth, h, c), Named(c.name), Some(c.at);
    MarkedCall(w, h, c);
    InvokeDeepIff(w, depth, h, t, to);
    assert CallTo(w, h, t, to) == {c};
    assert SomeNests(w, h, depth, {c}) <==> Nests(w, h, depth, c);
    if out.Done? { InvokeEffect(w, depth, h, t, to, out.heap); }
    if !MeetsNil(w, h, c) { InvokeNoPanic(w, depth, h, t, to); }
  }

  /** The chains of calls that start with `c` have a longest one. */
  ghost predicate ChainsBounded(w: World, h: Heap, c: Call) {
    exists len: nat :: ChainsUpTo(w, h, c, len)
  }

  ghost predicate ChainsUpTo(w: World, h: Heap, c: Call, len: nat) {
    forall cs :: ChainFrom(w, h, c, cs) ==> |cs| <= len
  }

  lemma ChainsUpToIff(w: World, h: Heap, c: Call, len: nat)
    ensures ChainsUpTo(w, h, c, len) <==> !Nests(w, h, len, c)
  {
    NestsIffChain(w, h, len, c);
    if cs :| ChainFrom(w, h, c, cs) && |cs| > len { ChainNests(w, h, len, c, cs); }
  }

  /**
   Given enough stack, a generated `Reset` that uses no nil returns if and only if its chains are bounded.
   */
  lemma ReturnsIffChainsBounded(w: World, h: Heap, c: Call)
    requires Proper(w, h, c) && !MeetsNil(w, h, c)
    ensures (exists depth: nat :: CallOutcome(w, depth, h, c).Done?) <==> ChainsBounded(w, h, c)
  {
    forall depth: nat ensures CallOutcome(w, depth, h, c).Done? <==> ChainsUpTo(w, h, c, depth) {
      ResetReturnsIff(w, depth, h, c);
      ChainsUpToIff(w, h, c, depth);
    }
  }

  /** Given enough stack, a generated `Reset` with bounded chains panics exactly when its table leads to a nil used. */
  lemma ResetPanicsIff(w: World, h: Heap, c: Call)
    requires Proper(w, h, c) && ChainsBounded(w, h, c)
    ensures (exists depth: nat :: CallOutcome(w, depth, h, c).Panic?) <==> MeetsNil(w, h, c)
  {
    var len: nat :| ChainsUpTo(w, h, c, len);
    ChainsUpToIff(w, h, c, len);
    ResetReturnsIff(w, len, h, c);
    forall depth: nat | !MeetsNil(w, h, c) ensures !CallOutcome(w, depth, h, c).Panic? {
      ResetReturnsIff(w, depth, h, c);
    }
  }

  // The two ways a generated `Reset` fails to return.

  /** A pointer cycle that leads a chain of calls back to one of them keeps it from returning at any depth. */
  lemma CycleNeverReturns(w: World, h: Heap, cs: seq<Call>, i: nat, j: nat, depth: nat)
    requires i < j < |cs| && cs[i] == cs[j] && CallChain(w, h, cs)
    requires HandWrittenOk(w) && FollowsFixed(w, TableOf(w, h, cs[0])) && cs[0].name in w.env.willHave
    ensures !CallOutcome(w, depth, h, cs[0]).Done?
  {
    CycleNests(w, h, cs, i, j, 0, depth);
    MarkedCall(w, h, cs[0]);
    InvokeDeepIff(w, depth, h, Named(cs[0].name), Some(cs[0].at));
    assert cs[0] in CallTo(w, h, Named(cs[0].name), Some(cs[0].at));
  }

  /** The marked `type Node struct { next *Node }`. */
  const LIST_ENV :=
    Env(map["Node" := Decl(Struct([Field("next", Pointer(Named("Node")), false)]), Absent)], {"Node"}, {})

  /** A node whose `next` is the node itself is such a cycle, of one call. */
  lemma SelfLoopIsCycle(w: World, h: Heap, self: Addr)
    requires w.env == LIST_ENV
    requires Addr(self.root, self.path + ["next"]) in h.cells
    requires h.cells[Addr(self.root, self.path + ["next"])] == PointerV(Some(self))
    ensures CallChain(w, h, [Call("Node", self), Call("Node", self)])
  {
    var f := Field("next", Pointer(Named("Node")), false);
    assert Underlying(w.env, "Node") == Struct([f]);
    assert HasOrWillHaveReset(w.env, f.typ);
    var at := Addr(self.root, self.path + ["next"]);
    assert f in [f] && Call("Node", self) in CallsOf(w, h, |w.env.decls| + 1, f.typ, at);
    assert Call("Node", self) in MethodCalls(w, h, Call("Node", self));
  }

  /** `type R interface { Reset() }` in the marked `type T struct { f R }`. */
  const RESETTER_ENV := Env(
    map["R" := Decl(Interface(Niladic), Absent), "T" := Decl(Struct([Field("f", Named("R"), false)]), Absent)],
    {"T"}, {})

  lemma ResetterBody(env: Env)
    requires env == RESETTER_ENV
    ensures HasOrWillHaveReset(env, Named("R"))
    ensures MethodBody(env, "T") == Some([CallReset(Sel(Recv, "f"), Named("R"))])
  {
    var e := Entry("R", false, []);
    assert HasOrWillHaveReset(env, Named("R")) by {
      assert Fresh(env, [e], {}) == [e];
      assert EntryHits(env, e) == [MethodHit(Niladic, e)];
      assert LevelHits(env, [e]) == [MethodHit(Niladic, e)];
    }
    assert Underlying(env, "T") == Struct([Field("f", Named("R"), false)]);
    EmitOne(env, |env.decls| + 1, Recv, Field("f", Named("R"), false));
  }

  /** A nil `f` is called without a check, unlike a field of an anonymous interface type. */
  lemma NilResetterPanics(w: World, h: Heap, self: Addr, depth: nat)
    requires w.env == RESETTER_ENV && depth > 0
    requires Addr(self.root, self.path + ["f"]) in h.cells
    requires h.cells[Addr(self.root, self.path + ["f"])] == InterfaceV(None)
    ensures Invoke(w, depth, h, Named("T"), Some(self)) == Panic
  {
    var f, typ := Sel(Recv, "f"), Named("R");
    ResetterBody(w.env);
    assert Eval(h, self, Recv) == Some(self);
    assert Load(h, self, f) == Some(InterfaceV(None));
    RunOne(w, depth - 1, h, self, CallReset(f, typ));
    assert Underlying(w.env, "R") == Interface(Niladic);
  }
}
