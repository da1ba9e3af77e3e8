/**
 How deep the calls between generated `Reset` methods nest, read off the types and the heap before the run. A run needs
 more depth than it is given exactly when a chain of calls is longer than that.
 */
module ResetNesting {
  import opened Wrappers
  import opened GoTypes
  import opened ResetGen
  import opened ResetSemantics
  import opened ResetTable

  /** A call that reaches a generated method past its nil check, or an embedded interface. */
  function CallTo(w: World, h: Heap, t: GoType, to: Option<Addr>): set<Call> {
    match Resolve(w.env, h, t, to)
    case Into(c) => {c}
    case _ => {}
  }

  function CallThrough(w: World, h: Heap, a: Addr, asserted: bool): set<Call> {
    var d := DynamicAt(h, a);
    if d.None? || (asserted && !Implements(w, d.value)) then {} else CallTo(w, h, Receiver(d.value.typ), d.value.to)
  }

  /** The calls made directly by the statements for the `t` at `a`. */
  function CallsOf(w: World, h: Heap, fuel: nat, t: GoType, a: Addr): set<Call>
    decreases fuel, t, 1
  {
    var v := if a in h.cells then h.cells[a] else OtherV(0);
    match t
    case Pointer(elem) =>
      if !v.PointerV? || v.to.None? then {}
      else if HasOrWillHaveReset(w.env, t) then CallTo(w, h, elem, v.to)
      else CallsOf(w, h, fuel, elem, v.to.value)
    case Named(n) =>
      if !HasOrWillHaveReset(w.env, t) then if fuel == 0 then {} else CallsOf(w, h, fuel - 1, Underlying(w.env, n), a)
      else if !IsInterface(w.env, t) then CallTo(w, h, t, Some(a))
      else CallThrough(w, h, a, false)
    case Struct(fields) => FieldCalls(w, h, fuel, fields, a)
    case Interface(_) => CallThrough(w, h, a, true)
    case _ => {}
  }

  function FieldCalls(w: World, h: Heap, fuel: nat, fields: seq<Field>, a: Addr): set<Call>
    decreases fuel, fields, 0
  {
    set f, c | f in fields && c in CallsOf(w, h, fuel, f.typ, Addr(a.root, a.path + [f.name])) :: c
  }

  /** The calls made directly by `c`. */
  function MethodCalls(w: World, h: Heap, c: Call): set<Call> {
    if c.name !in w.env.willHave then CallThrough(w, h, c.at, false)
    else
      match Underlying(w.env, c.name)
      case Struct(fields) => FieldCalls(w, h, |w.env.decls| + 1, fields, c.at)
      case _ => {}
  }

  /** Calls nest `k` deep below `c`. */
  predicate Nests(w: World, h: Heap, k: nat, c: Call) {
    k == 0 || exists d :: d in MethodCalls(w, h, c) && Nests(w, h, k - 1, d)
  }

  predicate SomeNests(w: World, h: Heap, k: nat, calls: set<Call>) {
    exists c :: c in calls && Nests(w, h, k, c)
  }

  /** Each call of the list is made directly by the one before. */
  ghost predicate CallChain(w: World, h: Heap, cs: seq<Call>) {
    forall i, j :: 0 <= i && j == i + 1 && j < |cs| ==> cs[j] in MethodCalls(w, h, cs[i])
  }

  ghost predicate ChainFrom(w: World, h: Heap, c: Call, cs: seq<Call>) {
    |cs| > 0 && cs[0] == c && CallChain(w, h, cs)
  }

  lemma {:induction false} NestsChain(w: World, h: Heap, k: nat, c: Call) returns (cs: seq<Call>)
    requires Nests(w, h, k, c)
    ensures ChainFrom(w, h, c, cs) && |cs| == k + 1
    decreases k
  {
    cs := [c];
    if k > 0 {
      var d :| d in MethodCalls(w, h, c) && Nests(w, h, k - 1, d);
      var rest := NestsChain(w, h, k - 1, d);
      cs := [c] + rest;
    }
  }

  lemma {:induction false} ChainNests(w: World, h: Heap, k: nat, c: Call, cs: seq<Call>)
    requires ChainFrom(w, h, c, cs) && |cs| >= k + 1
    ensures Nests(w, h, k, c)
    decreases k
  {
    if k > 0 {
      assert cs[1] in MethodCalls(w, h, cs[0]);
      ChainNests(w, h, k - 1, cs[1], cs[1..]);
    }
  }

  /** Calls nest `k` deep exactly when there is a chain of `k + 1` calls. */
  lemma NestsIffChain(w: World, h: Heap, k: nat, c: Call)
    ensures Nests(w, h, k, c) <==> exists cs :: ChainFrom(w, h, c, cs) && |cs| == k + 1
  {
    if Nests(w, h, k, c) { var cs := NestsChain(w, h, k, c); }
    if cs :| ChainFrom(w, h, c, cs) && |cs| == k + 1 { ChainNests(w, h, k, c, cs); }
  }

  /** A chain that comes back to a call nests without end. */
  lemma {:induction false} CycleNests(w: World, h: Heap, cs: seq<Call>, i: nat, j: nat, at: nat, k: nat)
    requires CallChain(w, h, cs) && i < j < |cs| && cs[i] == cs[j] && at < j
    ensures Nests(w, h, k, cs[at])
    decreases k
  {
    if k > 0 {
      assert cs[at + 1] in MethodCalls(w, h, cs[at]);
      CycleNests(w, h, cs, i, j, if at + 1 == j then i else at + 1, k - 1);
    }
  }

  // Like the table, the calls depend on the fixed shape only.

  lemma CallToShape(w: World, h: Heap, h': Heap, t: GoType, to: Option<Addr>, k: nat)
    requires SameShape(w, h, h') && MarksFixed(w, CallMarks(w, h, k, t, to))
    ensures CallTo(w, h', t, to) == CallTo(w, h, t, to)
  {
    ResolveShape(w, h, h', t, to);
  }

  lemma CallThroughShape(w: World, h: Heap, h': Heap, a: Addr, asserted: bool, k: nat)
    requires SameShape(w, h, h') && MarksFixed(w, InterfaceMarks(w, h, k, a, asserted))
    ensures CallThrough(w, h', a, asserted) == CallThrough(w, h, a, asserted)
  {
    assert Followed(a) in InterfaceMarks(w, h, k, a, asserted);
    DynamicShape(w, h, h', a);
    var d := DynamicAt(h, a);
    if d.Some? && (asserted ==> Implements(w, d.value)) {
      CallToShape(w, h, h', Receiver(d.value.typ), d.value.to, k);
    }
  }

  lemma {:induction false} CallsShape(w: World, h: Heap, h': Heap, fuel: nat, t: GoType, a: Addr)
    requires SameShape(w, h, h') && MarksFixed(w, Marks(w, h, fuel, t, a))
    ensures CallsOf(w, h, fuel, t, a) == CallsOf(w, h', fuel, t, a)
    decreases fuel, t, 1
  {
    match t
    case Pointer(elem) =>
      assert Followed(a) in Marks(w, h, fuel, t, a);
      if a in h.cells && h.cells[a].PointerV? && h.cells[a].to.Some? {
        if HasOrWillHaveReset(w.env, t) { CallToShape(w, h, h', elem, h.cells[a].to, fuel); }
        else { CallsShape(w, h, h', fuel, elem, h.cells[a].to.value); }
      }
    case Named(n) =>
      if !HasOrWillHaveReset(w.env, t) {
        if fuel > 0 { CallsShape(w, h, h', fuel - 1, Underlying(w.env, n), a); }
      } else if IsInterface(w.env, t) {
        CallThroughShape(w, h, h', a, false, fuel);
      } else {
        CallToShape(w, h, h', t, Some(a), fuel);
      }
    case Struct(fields) => FieldCallsShape(w, h, h', fuel, fields, a);
    case Interface(_) => CallThroughShape(w, h, h', a, true, fuel);
    case _ =>
  }

  lemma {:induction false} FieldCallsShape(w: World, h: Heap, h': Heap, fuel: nat, fields: seq<Field>, a: Addr)
    requires SameShape(w, h, h') && MarksFixed(w, FieldMarks(w, h, fuel, fields, a))
    ensures FieldCalls(w, h, fuel, fields, a) == FieldCalls(w, h', fuel, fields, a)
    decreases fuel, fields, 0
  {
    forall f | f in fields
      ensures var b := Addr(a.root, a.path + [f.name]); CallsOf(w, h, fuel, f.typ, b) == CallsOf(w, h', fuel, f.typ, b)
    {
      assert Marks(w, h, fuel, f.typ, Addr(a.root, a.path + [f.name])) <= FieldMarks(w, h, fuel, fields, a);
      CallsShape(w, h, h', fuel, f.typ, Addr(a.root, a.path + [f.name]));
    }
  }

  lemma CallToInTable(w: World, h: Heap, t: GoType, to: Option<Addr>, c: Call, j: nat, m: Mark)
    requires c in CallTo(w, h, t, to) && m in EnterMarks(w, h, j, c)
    ensures m in CallMarks(w, h, j + 1, t, to)
  {
  }

  /** What a direct call touches, the caller's table holds. */
  lemma {:induction false} CallsInTable(w: World, h: Heap, fuel: nat, t: GoType, a: Addr, c: Call, j: nat, m: Mark)
      returns (k: nat)
    requires c in CallsOf(w, h, fuel, t, a) && m in EnterMarks(w, h, j, c)
    ensures m in Marks(w, h, k, t, a)
    decreases fuel, t, 1
  {
    k := j + 1;
    match t
    case Pointer(elem) =>
      if !HasOrWillHaveReset(w.env, t) { k := CallsInTable(w, h, fuel, elem, h.cells[a].to.value, c, j, m); }
      else { CallToInTable(w, h, elem, h.cells[a].to, c, j, m); }
    case Named(n) =>
      if !HasOrWillHaveReset(w.env, t) {
        k := CallsInTable(w, h, fuel - 1, Underlying(w.env, n), a, c, j, m);
        k := k + 1;
      } else if IsInterface(w.env, t) {
        CallThroughInTable(w, h, a, false, c, j, m);
      } else {
        CallToInTable(w, h, t, Some(a), c, j, m);
      }
    case Struct(fields) => k := FieldCallsInTable(w, h, fuel, fields, a, c, j, m);
    case Interface(_) => CallThroughInTable(w, h, a, true, c, j, m);
    case _ => assert false;
  }

  lemma CallThroughInTable(w: World, h: Heap, a: Addr, asserted: bool, c: Call, j: nat, m: Mark)
    requires c in CallThrough(w, h, a, asserted) && m in EnterMarks(w, h, j, c)
    ensures m in InterfaceMarks(w, h, j + 1, a, asserted)
  {
    var d := DynamicAt(h, a).value;
    CallToInTable(w, h, Receiver(d.typ), d.to, c, j, m);
  }

  lemma {:induction false} FieldCallsInTable(w: World, h: Heap, fuel: nat, fields: seq<Field>, a: Addr, c: Call,
      j: nat, m: Mark)
      returns (k: nat)
    requires c in FieldCalls(w, h, fuel, fields, a) && m in EnterMarks(w, h, j, c)
    ensures m in FieldMarks(w, h, k, fields, a)
    decreases fuel, fields, 0
  {
    var f :| f in fields && c in CallsOf(w, h, fuel, f.typ, Addr(a.root, a.path + [f.name]));
    k := CallsInTable(w, h, fuel, f.typ, Addr(a.root, a.path + [f.name]), c, j, m);
  }

  lemma FieldCallFixed(w: World, h: Heap, fuel: nat, fields: seq<Field>, a: Addr, c: Call)
    requires c in FieldCalls(w, h, fuel, fields, a) && FollowsFixed(w, FieldTable(w, h, fields, a))
    ensures FollowsFixed(w, TableOf(w, h, c))
  {
    forall b | Followed(b) in TableOf(w, h, c) ensures b in w.fixed {
      var j: nat :| Followed(b) in EnterMarks(w, h, j, c);
      var k := FieldCallsInTable(w, h, fuel, fields, a, c, j, Followed(b));
      assert InFieldTable(w, h, fields, a, Followed(b));
    }
  }

  lemma CallThroughFixed(w: World, h: Heap, a: Addr, c: Call)
    requires c in CallThrough(w, h, a, false) && FollowsFixed(w, InterfaceTable(w, h, a, false))
    ensures FollowsFixed(w, TableOf(w, h, c))
  {
    forall b | Followed(b) in TableOf(w, h, c) ensures b in w.fixed {
      var j: nat :| Followed(b) in EnterMarks(w, h, j, c);
      CallThroughInTable(w, h, a, false, c, j, Followed(b));
      assert InInterfaceTable(w, h, a, false, Followed(b));
    }
  }

  lemma FieldMarksFixed(w: World, h: Heap, k: nat, fields: seq<Field>, a: Addr)
    requires FollowsFixed(w, FieldTable(w, h, fields, a))
    ensures MarksFixed(w, FieldMarks(w, h, k, fields, a))
  {
    assert forall m :: m in FieldMarks(w, h, k, fields, a) ==> InFieldTable(w, h, fields, a, m);
  }

  /** The direct calls of a method are the same at any moment, and follow fixed pointers only. */
  lemma MethodCallsShape(w: World, h: Heap, h': Heap, c: Call)
    requires SameShape(w, h, h') && FollowsFixed(w, TableOf(w, h, c))
    ensures MethodCalls(w, h', c) == MethodCalls(w, h, c)
    ensures forall d :: d in MethodCalls(w, h, c) ==> FollowsFixed(w, TableOf(w, h, d))
  {
    if c.name !in w.env.willHave {
      ThroughTable(w, h, c);
      assert forall m :: m in InterfaceMarks(w, h, 0, c.at, false) ==> InInterfaceTable(w, h, c.at, false, m);
      CallThroughShape(w, h, h', c.at, false, 0);
      forall d | d in MethodCalls(w, h, c) ensures FollowsFixed(w, TableOf(w, h, d)) {
        CallThroughFixed(w, h, c.at, d);
      }
    } else if Underlying(w.env, c.name).Struct? {
      var fields := Underlying(w.env, c.name).fields;
      MarkedTable(w, h, c);
      FieldMarksFixed(w, h, |w.env.decls| + 1, fields, c.at);
      FieldCallsShape(w, h, h', |w.env.decls| + 1, fields, c.at);
      forall d | d in MethodCalls(w, h, c) ensures FollowsFixed(w, TableOf(w, h, d)) {
        FieldCallFixed(w, h, |w.env.decls| + 1, fields, c.at, d);
      }
    }
  }

  lemma SameCallsNest(w: World, h: Heap, h': Heap, k: nat, c: Call)
    requires k > 0 && MethodCalls(w, h', c) == MethodCalls(w, h, c)
    requires forall d :: d in MethodCalls(w, h, c) ==> (Nests(w, h, k - 1, d) <==> Nests(w, h', k - 1, d))
    ensures Nests(w, h, k, c) <==> Nests(w, h', k, c)
  {
  }

  lemma {:induction false} NestsShape(w: World, h: Heap, h': Heap, k: nat, c: Call)
    requires SameShape(w, h, h') && FollowsFixed(w, TableOf(w, h, c))
    ensures Nests(w, h, k, c) <==> Nests(w, h', k, c)
    decreases k
  {
    if k > 0 {
      MethodCallsShape(w, h, h', c);
      forall d | d in MethodCalls(w, h, c) ensures Nests(w, h, k - 1, d) <==> Nests(w, h', k - 1, d) {
        NestsShape(w, h, h', k - 1, d);
      }
      SameCallsNest(w, h, h', k, c);
    }
  }

  // A run that does not panic gets too deep exactly when one of its calls nests too deep.

  predicate DeepIff(w: World, depth: nat, h: Heap, out: Outcome, calls: set<Call>) {
    !out.Panic? ==> (out.Deep? <==> SomeNests(w, h, depth, calls))
  }

  lemma OneNests(w: World, h: Heap, k: nat, c: Call)
    ensures SomeNests(w, h, k, {c}) <==> k == 0 || SomeNests(w, h, k - 1, MethodCalls(w, h, c))
  {
    assert c in {c};
  }

  lemma {:induction false} InvokeDeepIff(w: World, depth: nat, h: Heap, t: GoType, to: Option<Addr>)
    requires HandWrittenOk(w) && FollowsFixed(w, CallTable(w, h, t, to))
    ensures DeepIff(w, depth, h, Invoke(w, depth, h, t, to), CallTo(w, h, t, to))
    decreases depth, 2
  {
    match Resolve(w.env, h, t, to)
    case Into(c) =>
      assert CallTo(w, h, t, to) == {c};
      OneNests(w, h, depth, c);
      if depth > 0 {
        CallTableIs(w, h, t, to);
        EnterDeepIff(w, depth - 1, h, c);
      }
    case _ =>
  }

  lemma {:induction false} EnterDeepIff(w: World, depth: nat, h: Heap, c: Call)
    requires HandWrittenOk(w) && FollowsFixed(w, TableOf(w, h, c))
    ensures DeepIff(w, depth, h, Enter(w, depth, h, c), MethodCalls(w, h, c))
    decreases depth, 5
  {
    if c.name !in w.env.willHave {
      ThroughTable(w, h, c);
      ThroughDeepIff(w, depth, h, c.at, false);
    } else if MethodBody(w.env, c.name).Some? {
      var fields := Underlying(w.env, c.name).fields;
      MarkedTable(w, h, c);
      StructDeepIff(w, depth, h, c.at, |w.env.decls| + 1, Recv, fields, c.at, MethodBody(w.env, c.name).value);
    }
  }

  lemma {:induction false} ThroughDeepIff(w: World, depth: nat, h: Heap, a: Addr, asserted: bool)
    requires HandWrittenOk(w) && FollowsFixed(w, InterfaceTable(w, h, a, asserted))
    requires asserted && DynamicAt(h, a).Some? ==> Implements(w, DynamicAt(h, a).value)
    ensures DeepIff(w, depth, h, InvokeThrough(w, depth, h, a), CallThrough(w, h, a, asserted))
    decreases depth, 3
  {
    var d := DynamicAt(h, a);
    if d.Some? {
      InterfaceTableIs(w, h, a, asserted);
      InvokeDeepIff(w, depth, h, Receiver(d.value.typ), d.value.to);
    }
  }

  lemma FieldCallsSnoc(w: World, h: Heap, fuel: nat, fields: seq<Field>, a: Addr)
    requires |fields| > 0
    ensures var last := |fields| - 1;
      FieldCalls(w, h, fuel, fields, a) == FieldCalls(w, h, fuel, fields[..last], a)
        + CallsOf(w, h, fuel, fields[last].typ, Addr(a.root, a.path + [fields[last].name]))
  {
    assert fields == fields[..|fields| - 1] + [fields[|fields| - 1]];
  }

  lemma SomeNestsUnion(w: World, h: Heap, k: nat, a: set<Call>, b: set<Call>)
    ensures SomeNests(w, h, k, a + b) <==> SomeNests(w, h, k, a) || SomeNests(w, h, k, b)
  {
  }

  /** The last field's calls nest in the heap that the other fields' statements leave as they did before them. */
  lemma LastFieldShape(w: World, h: Heap, mid: Heap, depth: nat, fuel: nat, fields: seq<Field>, a: Addr)
    requires |fields| > 0 && SameShape(w, h, mid) && FollowsFixed(w, FieldTable(w, h, fields, a))
    ensures var f := fields[|fields| - 1]; var b := Addr(a.root, a.path + [f.name]);
      && CallsOf(w, mid, fuel, f.typ, b) == CallsOf(w, h, fuel, f.typ, b)
      && var calls := CallsOf(w, h, fuel, f.typ, b); SomeNests(w, mid, depth, calls) <==> SomeNests(w, h, depth, calls)
  {
    var f := fields[|fields| - 1];
    var b := Addr(a.root, a.path + [f.name]);
    FieldMarksFixed(w, h, fuel, fields, a);
    assert Marks(w, h, fuel, f.typ, b) <= FieldMarks(w, h, fuel, fields, a);
    CallsShape(w, h, mid, fuel, f.typ, b);
    forall c | c in CallsOf(w, h, fuel, f.typ, b) ensures Nests(w, mid, depth, c) <==> Nests(w, h, depth, c) {
      assert c in FieldCalls(w, h, fuel, fields, a);
      FieldCallFixed(w, h, fuel, fields, a, c);
      NestsShape(w, h, mid, depth, c);
    }
  }

  lemma {:induction false} StructDeepIff(w: World, depth: nat, h: Heap, self: Addr, fuel: nat, p: Path,
      fields: seq<Field>, a: Addr, ss: seq<Stmt>)
    requires HandWrittenOk(w) && FollowsFixed(w, FieldTable(w, h, fields, a))
    requires EmitStruct(w.env, fuel, p, fields) == Some(ss)
    requires Eval(h, self, p) == Some(a) && PathFixed(w, h, self, p)
    ensures DeepIff(w, depth, h, Run(w, depth, h, self, ss), FieldCalls(w, h, fuel, fields, a))
    decreases depth, 4, fuel, fields, 0
  {
    if |fields| > 0 {
      var last := |fields| - 1;
      var f, b := fields[last], Addr(a.root, a.path + [fields[last].name]);
      var before := EmitStruct(w.env, fuel, p, fields[..last]).value;
      var here := Emit(w.env, fuel, Sel(p, f.name), f.typ).value;
      FieldTableSnoc(w, h, fields, a);
      FieldCallsSnoc(w, h, fuel, fields, a);
      SomeNestsUnion(w, h, depth, FieldCalls(w, h, fuel, fields[..last], a), CallsOf(w, h, fuel, f.typ, b));
      StructDeepIff(w, depth, h, self, fuel, p, fields[..last], a, before);
      RunAppend(w, depth, h, self, before, here);
      var first := Run(w, depth, h, self, before);
      if first.Done? {
        EmitStructEffect(w, depth, h, self, fuel, p, fields[..last], a, before, first.heap);
        EvalShape(w, h, first.heap, self, p);
        TableShape(w, h, first.heap, f.typ, b);
        EmitDeepIff(w, depth, first.heap, self, fuel, Sel(p, f.name), f.typ, b, here);
        LastFieldShape(w, h, first.heap, depth, fuel, fields, a);
      }
    }
  }

  lemma {:induction false} EmitDeepIff(w: World, depth: nat, h: Heap, self: Addr, fuel: nat, p: Path, t: GoType,
      a: Addr, ss: seq<Stmt>)
    requires HandWrittenOk(w) && FollowsFixed(w, Table(w, h, t, a))
    requires Emit(w.env, fuel, p, t) == Some(ss)
    requires Eval(h, self, p) == Some(a) && PathFixed(w, h, self, p)
    ensures DeepIff(w, depth, h, Run(w, depth, h, self, ss), CallsOf(w, h, fuel, t, a))
    decreases depth, 4, fuel, t, 2
  {
    match t
    case Pointer(_) => PointerDeepIff(w, depth, h, self, fuel, p, t, a, ss);
    case Named(_) => NamedDeepIff(w, depth, h, self, fuel, p, t, a, ss);
    case Struct(fields) =>
      assert forall k: nat :: Marks(w, h, k, t, a) == FieldMarks(w, h, k, fields, a);
      assert Table(w, h, t, a) == FieldTable(w, h, fields, a);
      StructDeepIff(w, depth, h, self, fuel, p, fields, a, ss);
    case Interface(_) => InterfaceDeepIff(w, depth, h, self, fuel, p, t, a, ss);
    case _ => LeafNotDeep(w, depth, h, self, fuel, p, t, ss);
  }

  lemma LeafNotDeep(w: World, depth: nat, h: Heap, self: Addr, fuel: nat, p: Path, t: GoType, ss: seq<Stmt>)
    requires t.Basic? || t.Slice? || t.Map? || t.Untouched?
    requires Emit(w.env, fuel, p, t) == Some(ss)
    ensures Run(w, depth, h, self, ss) != Deep
  {
    if |ss| == 1 {
      RunOne(w, depth, h, self, ss[0]);
      assert ss == [ss[0]];
    }
  }

  lemma InterfaceDeepIff(w: World, depth: nat, h: Heap, self: Addr, fuel: nat, p: Path, t: GoType, a: Addr,
      ss: seq<Stmt>)
    requires t.Interface? && HandWrittenOk(w) && FollowsFixed(w, Table(w, h, t, a))
    requires Emit(w.env, fuel, p, t) == Some(ss) && Eval(h, self, p) == Some(a)
    ensures DeepIff(w, depth, h, Run(w, depth, h, self, ss), CallsOf(w, h, fuel, t, a))
    decreases depth, 4, fuel, t, 1
  {
    RunOne(w, depth, h, self, IfResetter(p));
    assert forall k: nat :: Marks(w, h, k, t, a) == InterfaceMarks(w, h, k, a, true);
    assert Table(w, h, t, a) == InterfaceTable(w, h, a, true);
    var d := DynamicAt(h, a);
    if d.Some? && Implements(w, d.value) { ThroughDeepIff(w, depth, h, a, true); }
  }

  lemma {:induction false} PointerDeepIff(w: World, depth: nat, h: Heap, self: Addr, fuel: nat, p: Path, t: GoType,
      a: Addr, ss: seq<Stmt>)
    requires t.Pointer? && HandWrittenOk(w) && FollowsFixed(w, Table(w, h, t, a))
    requires Emit(w.env, fuel, p, t) == Some(ss)
    requires Eval(h, self, p) == Some(a) && PathFixed(w, h, self, p)
    ensures DeepIff(w, depth, h, Run(w, depth, h, self, ss), CallsOf(w, h, fuel, t, a))
    decreases depth, 4, fuel, t, 1
  {
    PointerShape(w.env, fuel, p, t);
    RunOne(w, depth, h, self, ss[0]);
    if a in h.cells && h.cells[a].PointerV? {
      var to := h.cells[a].to;
      RunGuarded(w, depth, h, self, p, ss[0].body, a);
      if to.Some? {
        PointerTable(w, h, t, a);
        if HasOrWillHaveReset(w.env, t) {
          RunPointerCall(w, depth, h, self, p, t, a);
          InvokeDeepIff(w, depth, h, t.elem, to);
        } else {
          EmitDeepIff(w, depth, h, self, fuel, Deref(p), t.elem, to.value, ss[0].body);
        }
      }
    }
  }

  lemma {:induction false} NamedDeepIff(w: World, depth: nat, h: Heap, self: Addr, fuel: nat, p: Path, t: GoType,
      a: Addr, ss: seq<Stmt>)
    requires t.Named? && HandWrittenOk(w) && FollowsFixed(w, Table(w, h, t, a))
    requires Emit(w.env, fuel, p, t) == Some(ss)
    requires Eval(h, self, p) == Some(a) && PathFixed(w, h, self, p)
    ensures DeepIff(w, depth, h, Run(w, depth, h, self, ss), CallsOf(w, h, fuel, t, a))
    decreases depth, 4, fuel, t, 1
  {
    if !HasOrWillHaveReset(w.env, t) {
      NamedTable(w, h, t.name, a);
      EmitDeepIff(w, depth, h, self, fuel - 1, p, Underlying(w.env, t.name), a, ss);
    } else {
      RunOne(w, depth, h, self, CallReset(p, t));
      if !IsInterface(w.env, t) {
        NamedCallTable(w, h, t, a);
        InvokeDeepIff(w, depth, h, t, Some(a));
      } else {
        NamedInterfaceTable(w, h, t, a);
        ThroughDeepIff(w, depth, h, a, false);
      }
    }
  }
}
