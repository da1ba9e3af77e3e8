/**
 The field-reset table of `cmd/reset` as a set of targets read off the types and the heap before the call, and the
 proof that the generated statements reset exactly that set, whatever the aliasing and whatever the order.
 */
module ResetTable {
  import opened Wrappers
  import opened GoTypes
  import opened ResetGen
  import opened ResetSemantics

  // The table. `k` bounds how many named types and calls are followed.

  function Marks(w: World, h: Heap, k: nat, t: GoType, a: Addr): set<Mark>
    decreases k, 4, t, 1
  {
    var v := if a in h.cells then h.cells[a] else OtherV(0);
    match t
    case Basic(kind) => if kind.OtherBasic? then {} else {Zeroed(Cell(a))}
    case Slice(_) => {Zeroed(Cell(a))}
    case Map(_, _) => {Followed(a)} + if v.MapV? && v.ref.Some? then {Zeroed(MapObject(v.ref.value))} else {}
    case Pointer(elem) =>
      {Followed(a)} +
      if !v.PointerV? || v.to.None? then {}
      else if HasOrWillHaveReset(w.env, t) then CallMarks(w, h, k, elem, v.to)
      else Marks(w, h, k, elem, v.to.value)
    case Named(n) =>
      if !HasOrWillHaveReset(w.env, t) then if k == 0 then {} else Marks(w, h, k - 1, Underlying(w.env, n), a)
      else if !IsInterface(w.env, t) then CallMarks(w, h, k, t, Some(a))
      else InterfaceMarks(w, h, k, a, false)
    case Struct(fields) => FieldMarks(w, h, k, fields, a)
    case Interface(_) => InterfaceMarks(w, h, k, a, true)
    case Untouched => {}
  }

  function FieldMarks(w: World, h: Heap, k: nat, fields: seq<Field>, a: Addr): set<Mark>
    decreases k, 4, fields, 0
  {
    set f, m | f in fields && m in Marks(w, h, k, f.typ, Addr(a.root, a.path + [f.name])) :: m
  }

  /** The interface at `a` has the `Reset` of its value called, behind a type assertion when `asserted`. */
  function InterfaceMarks(w: World, h: Heap, k: nat, a: Addr, asserted: bool): set<Mark>
    decreases k, 3
  {
    var d := DynamicAt(h, a);
    {Followed(a)} +
    if d.None? then if asserted then {} else {NilUse}
    else if asserted && !Implements(w, d.value) then {}
    else CallMarks(w, h, k, Receiver(d.value.typ), d.value.to)
  }

  /** `Reset()` on a pointer to a `t`: generated code has its own targets, a hand-written method keeps its reach. */
  function CallMarks(w: World, h: Heap, k: nat, t: GoType, to: Option<Addr>): set<Mark>
    decreases k, 2
  {
    Crossing(w.env, h, t, to) +
    match Resolve(w.env, h, t, to)
    case ByHand(n, at) => set x | x in w.reach(n, at, h) :: Foreign(x)
    case Into(c) => if k == 0 then {} else EnterMarks(w, h, k - 1, c)
    case _ => {}
  }

  /** A marked struct has its own fields reset, an embedded interface passes the call on to its value. */
  function EnterMarks(w: World, h: Heap, k: nat, c: Call): set<Mark>
    decreases k, 5
  {
    if c.name in w.env.willHave then Marks(w, h, k, Underlying(w.env, c.name), c.at)
    else InterfaceMarks(w, h, k, c.at, false)
  }

  ghost predicate InTable(w: World, h: Heap, t: GoType, a: Addr, m: Mark) {
    exists k: nat :: m in Marks(w, h, k, t, a)
  }

  /** Everything the table says a reset of the `t` at `a` touches, however far away. */
  ghost function Table(w: World, h: Heap, t: GoType, a: Addr): iset<Mark> {
    iset m | InTable(w, h, t, a, m)
  }

  ghost predicate InCallTable(w: World, h: Heap, t: GoType, to: Option<Addr>, m: Mark) {
    exists k: nat :: m in CallMarks(w, h, k, t, to)
  }

  ghost function CallTable(w: World, h: Heap, t: GoType, to: Option<Addr>): iset<Mark> {
    iset m | InCallTable(w, h, t, to, m)
  }

  ghost predicate InInterfaceTable(w: World, h: Heap, a: Addr, asserted: bool, m: Mark) {
    exists k: nat :: m in InterfaceMarks(w, h, k, a, asserted)
  }

  ghost function InterfaceTable(w: World, h: Heap, a: Addr, asserted: bool): iset<Mark> {
    iset m | InInterfaceTable(w, h, a, asserted, m)
  }

  ghost predicate InFieldTable(w: World, h: Heap, fields: seq<Field>, a: Addr, m: Mark) {
    exists k: nat :: m in FieldMarks(w, h, k, fields, a)
  }

  ghost function FieldTable(w: World, h: Heap, fields: seq<Field>, a: Addr): iset<Mark> {
    iset m | InFieldTable(w, h, fields, a, m)
  }

  ghost predicate InTableOf(w: World, h: Heap, c: Call, m: Mark) {
    exists k: nat :: m in EnterMarks(w, h, k, c)
  }

  /** The table of a call that has reached its method. */
  ghost function TableOf(w: World, h: Heap, c: Call): iset<Mark> {
    iset m | InTableOf(w, h, c, m)
  }

  /** Hand-written methods leave alone the pointers, maps and interfaces that are followed. */
  ghost predicate FollowsFixed(w: World, marks: iset<Mark>) {
    forall a :: Followed(a) in marks ==> a in w.fixed
  }

  predicate MarksFixed(w: World, marks: set<Mark>) {
    forall m :: m in marks && m.Followed? ==> m.a in w.fixed
  }

  /**
   From `h` to `h'` the marked targets are reset and nothing else changes; foreign targets are not spoken of, and no nil
   interface or outer pointer is used.
   */
  ghost predicate Effect(w: World, h: Heap, h': Heap, marks: iset<Mark>) {
    && SameShape(w, h, h')
    && NilUse !in marks
    && forall x :: Foreign(x) !in marks ==> if Zeroed(x) in marks then IsReset(h, h', x) else Unchanged(h, h', x)
  }

  lemma ComposeEffects(w: World, h: Heap, h1: Heap, h2: Heap, m1: iset<Mark>, m2: iset<Mark>)
    requires Effect(w, h, h1, m1) && Effect(w, h1, h2, m2)
    ensures Effect(w, h, h2, m1 + m2)
  {
  }

  // The table reads only the shape of the heap, so it says the same before and after every statement.

  lemma {:induction false} MarksShape(w: World, h: Heap, h': Heap, k: nat, t: GoType, a: Addr)
    requires HandWrittenOk(w) && SameShape(w, h, h') && MarksFixed(w, Marks(w, h, k, t, a))
    ensures Marks(w, h, k, t, a) == Marks(w, h', k, t, a)
    decreases k, 4, t, 1
  {
    var v := if a in h.cells then h.cells[a] else OtherV(0);
    match t
    case Map(_, _) => assert Followed(a) in Marks(w, h, k, t, a);
    case Pointer(elem) =>
      assert Followed(a) in Marks(w, h, k, t, a);
      if v.PointerV? && v.to.Some? {
        if HasOrWillHaveReset(w.env, t) { CallMarksShape(w, h, h', k, elem, v.to); }
        else { MarksShape(w, h, h', k, elem, v.to.value); }
      }
    case Named(n) => NamedMarksShape(w, h, h', k, t, a);
    case Struct(fields) => FieldMarksShape(w, h, h', k, fields, a);
    case Interface(_) => InterfaceMarksShape(w, h, h', k, a, true);
    case _ =>
  }

  lemma {:induction false} NamedMarksShape(w: World, h: Heap, h': Heap, k: nat, t: GoType, a: Addr)
    requires t.Named?
    requires HandWrittenOk(w) && SameShape(w, h, h') && MarksFixed(w, Marks(w, h, k, t, a))
    ensures Marks(w, h, k, t, a) == Marks(w, h', k, t, a)
    decreases k, 4, t, 0
  {
    if !HasOrWillHaveReset(w.env, t) {
      if k > 0 { MarksShape(w, h, h', k - 1, Underlying(w.env, t.name), a); }
    } else if !IsInterface(w.env, t) {
      CallMarksShape(w, h, h', k, t, Some(a));
    } else {
      InterfaceMarksShape(w, h, h', k, a, false);
    }
  }

  lemma {:induction false} FieldMarksShape(w: World, h: Heap, h': Heap, k: nat, fields: seq<Field>, a: Addr)
    requires HandWrittenOk(w) && SameShape(w, h, h') && MarksFixed(w, FieldMarks(w, h, k, fields, a))
    ensures FieldMarks(w, h, k, fields, a) == FieldMarks(w, h', k, fields, a)
    decreases k, 4, fields, 0
  {
    forall f | f in fields
      ensures var b := Addr(a.root, a.path + [f.name]); Marks(w, h, k, f.typ, b) == Marks(w, h', k, f.typ, b)
    {
      assert Marks(w, h, k, f.typ, Addr(a.root, a.path + [f.name])) <= FieldMarks(w, h, k, fields, a);
      MarksShape(w, h, h', k, f.typ, Addr(a.root, a.path + [f.name]));
    }
  }

  lemma {:induction false} InterfaceMarksShape(w: World, h: Heap, h': Heap, k: nat, a: Addr, asserted: bool)
    requires HandWrittenOk(w) && SameShape(w, h, h') && MarksFixed(w, InterfaceMarks(w, h, k, a, asserted))
    ensures InterfaceMarks(w, h, k, a, asserted) == InterfaceMarks(w, h', k, a, asserted)
    decreases k, 3
  {
    assert Followed(a) in InterfaceMarks(w, h, k, a, asserted);
    DynamicShape(w, h, h', a);
    var d := DynamicAt(h, a);
    if d.Some? && (asserted ==> Implements(w, d.value)) {
      CallMarksShape(w, h, h', k, Receiver(d.value.typ), d.value.to);
    }
  }

  lemma DynamicShape(w: World, h: Heap, h': Heap, a: Addr)
    requires SameShape(w, h, h') && a in w.fixed
    ensures DynamicAt(h', a) == DynamicAt(h, a)
  {
  }

  lemma {:induction false} WalkShape(w: World, h: Heap, h': Heap, to: Option<Addr>, hops: seq<Hop>)
    requires SameShape(w, h, h') && MarksFixed(w, WalkMarks(h, to, hops))
    ensures Walk(h', to, hops) == Walk(h, to, hops) && WalkMarks(h', to, hops) == WalkMarks(h, to, hops)
    decreases |hops|
  {
    if |hops| > 0 && to.Some? {
      var b := Addr(to.value.root, to.value.path + [hops[0].field]);
      if !hops[0].deref {
        WalkShape(w, h, h', Some(b), hops[1..]);
      } else {
        assert Followed(b) in WalkMarks(h, to, hops);
        if b in h.cells && h.cells[b].PointerV? { WalkShape(w, h, h', h.cells[b].to, hops[1..]); }
      }
    }
  }

  /** A call comes to the same method in a heap of the same shape. */
  lemma ResolveShape(w: World, h: Heap, h': Heap, t: GoType, to: Option<Addr>)
    requires SameShape(w, h, h') && MarksFixed(w, Crossing(w.env, h, t, to))
    ensures Resolve(w.env, h', t, to) == Resolve(w.env, h, t, to)
    ensures Crossing(w.env, h', t, to) == Crossing(w.env, h, t, to)
  {
    var owner := Selected(w.env, t);
    if owner.Some? { WalkShape(w, h, h', to, owner.value.hops); }
  }

  lemma {:induction false} CallMarksShape(w: World, h: Heap, h': Heap, k: nat, t: GoType, to: Option<Addr>)
    requires HandWrittenOk(w) && SameShape(w, h, h') && MarksFixed(w, CallMarks(w, h, k, t, to))
    ensures CallMarks(w, h, k, t, to) == CallMarks(w, h', k, t, to)
    decreases k, 2
  {
    ResolveShape(w, h, h', t, to);
    var r := Resolve(w.env, h, t, to);
    if r.Into? && k > 0 { EnterMarksShape(w, h, h', k - 1, r.call); }
  }

  lemma {:induction false} EnterMarksShape(w: World, h: Heap, h': Heap, k: nat, c: Call)
    requires HandWrittenOk(w) && SameShape(w, h, h') && MarksFixed(w, EnterMarks(w, h, k, c))
    ensures EnterMarks(w, h, k, c) == EnterMarks(w, h', k, c)
    decreases k, 5
  {
    if c.name in w.env.willHave { MarksShape(w, h, h', k, Underlying(w.env, c.name), c.at); }
    else { InterfaceMarksShape(w, h, h', k, c.at, false); }
  }

  /** The pointers an access path goes through are fixed. */
  ghost predicate PathFixed(w: World, h: Heap, self: Addr, p: Path) {
    match p
    case Recv => true
    case Sel(base, _) => PathFixed(w, h, self, base)
    case Deref(base) =>
      var a := Eval(h, self, base);
      PathFixed(w, h, self, base) && (a.Some? ==> a.value in w.fixed)
  }

  lemma {:induction false} EvalShape(w: World, h: Heap, h': Heap, self: Addr, p: Path)
    requires SameShape(w, h, h') && PathFixed(w, h, self, p)
    ensures Eval(h, self, p) == Eval(h', self, p) && PathFixed(w, h', self, p)
  {
    match p
    case Recv =>
    case Sel(base, _) => EvalShape(w, h, h', self, base);
    case Deref(base) => EvalShape(w, h, h', self, base);
  }

  // Running the generated code.

  lemma {:induction false} RunAppend(w: World, depth: nat, h: Heap, self: Addr, ss: seq<Stmt>, ts: seq<Stmt>)
    ensures var first := Run(w, depth, h, self, ss);
      Run(w, depth, h, self, ss + ts) == if first.Done? then Run(w, depth, first.heap, self, ts) else first
    decreases |ss|
  {
    if |ss| == 0 {
      assert ss + ts == ts;
    } else {
      assert (ss + ts)[1..] == ss[1..] + ts;
      var first := Step(w, depth, h, self, ss[0]);
      if first.Done? { RunAppend(w, depth, first.heap, self, ss[1..], ts); }
    }
  }

  lemma RunOne(w: World, depth: nat, h: Heap, self: Addr, s: Stmt)
    ensures Run(w, depth, h, self, [s]) == Step(w, depth, h, self, s)
  {
  }

  lemma MarkedTable(w: World, h: Heap, c: Call)
    requires c.name in w.env.willHave && Underlying(w.env, c.name).Struct?
    ensures TableOf(w, h, c) == FieldTable(w, h, Underlying(w.env, c.name).fields, c.at)
  {
    var fields := Underlying(w.env, c.name).fields;
    assert forall k: nat :: EnterMarks(w, h, k, c) == FieldMarks(w, h, k, fields, c.at);
  }

  lemma ThroughTable(w: World, h: Heap, c: Call)
    requires c.name !in w.env.willHave
    ensures TableOf(w, h, c) == InterfaceTable(w, h, c.at, false)
  {
    assert forall k: nat :: EnterMarks(w, h, k, c) == InterfaceMarks(w, h, k, c.at, false);
  }

  /** The table of an interface is that of the method that is called on its value, if any. */
  lemma InterfaceTableIs(w: World, h: Heap, a: Addr, asserted: bool)
    ensures var d := DynamicAt(h, a);
      InterfaceTable(w, h, a, asserted) == iset{Followed(a)} +
        if d.None? then if asserted then iset{} else iset{NilUse}
        else if asserted && !Implements(w, d.value) then iset{}
        else CallTable(w, h, Receiver(d.value.typ), d.value.to)
  {
    var d := DynamicAt(h, a);
    assert Followed(a) in InterfaceMarks(w, h, 0, a, asserted);
    if d.None? {
      assert forall k: nat :: InterfaceMarks(w, h, k, a, asserted) == InterfaceMarks(w, h, 0, a, asserted);
    } else if !asserted || Implements(w, d.value) {
      assert forall k: nat ::
        InterfaceMarks(w, h, k, a, asserted) == {Followed(a)} + CallMarks(w, h, k, Receiver(d.value.typ), d.value.to);
    }
  }

  ghost function ToIset(marks: set<Mark>): iset<Mark> {
    iset m | m in marks
  }

  /** The table of a call: what is crossed on the way to the method, and what the method touches. */
  lemma CallTableIs(w: World, h: Heap, t: GoType, to: Option<Addr>)
    ensures CallTable(w, h, t, to) == ToIset(Crossing(w.env, h, t, to)) +
      match Resolve(w.env, h, t, to)
      case ByHand(n, at) => iset x | x in w.reach(n, at, h) :: Foreign(x)
      case Into(c) => TableOf(w, h, c)
      case _ => iset{}
  {
    var r, crossing := Resolve(w.env, h, t, to), Crossing(w.env, h, t, to);
    var table := CallTable(w, h, t, to);
    forall m | m in crossing ensures m in table { assert m in CallMarks(w, h, 0, t, to); }
    match r
    case Into(c) =>
      forall m | m in table && m !in crossing ensures m in TableOf(w, h, c) {
        var k: nat :| m in CallMarks(w, h, k, t, to);
        assert m in EnterMarks(w, h, k - 1, c);
      }
      forall m | m in TableOf(w, h, c) ensures m in table {
        var k: nat :| m in EnterMarks(w, h, k, c);
        assert m in CallMarks(w, h, k + 1, t, to);
      }
    case ByHand(n, at) =>
      var reach := set x | x in w.reach(n, at, h) :: Foreign(x);
      forall m | m in table ensures m in crossing + reach {
        var k: nat :| m in CallMarks(w, h, k, t, to);
      }
      forall m | m in reach ensures m in table { assert m in CallMarks(w, h, 0, t, to); }
    case _ =>
      forall m | m in table ensures m in crossing {
        var k: nat :| m in CallMarks(w, h, k, t, to);
      }
  }

  /** The method of a marked struct is its generated one. */
  lemma MarkedCall(w: World, h: Heap, c: Call)
    requires c.name in w.env.willHave
    ensures Resolve(w.env, h, Named(c.name), Some(c.at)) == Into(c)
    ensures CallTable(w, h, Named(c.name), Some(c.at)) == TableOf(w, h, c)
  {
    CallTableIs(w, h, Named(c.name), Some(c.at));
  }

  lemma {:induction false} OnlyFollowed(h: Heap, to: Option<Addr>, hops: seq<Hop>)
    ensures forall m :: m in WalkMarks(h, to, hops) ==> m.Followed?
    decreases |hops|
  {
    if |hops| > 0 && to.Some? {
      var b := Addr(to.value.root, to.value.path + [hops[0].field]);
      if !hops[0].deref { OnlyFollowed(h, Some(b), hops[1..]); }
      else if b in h.cells && h.cells[b].PointerV? { OnlyFollowed(h, h.cells[b].to, hops[1..]); }
    }
  }

  /** Crossing to a method changes nothing. */
  lemma CrossingEffect(w: World, h: Heap, t: GoType, to: Option<Addr>)
    requires !Resolve(w.env, h, t, to).Illegal? && !Resolve(w.env, h, t, to).NilPanic?
    ensures Effect(w, h, h, ToIset(Crossing(w.env, h, t, to)))
  {
    OnlyFollowed(h, to, Selected(w.env, t).value.hops);
  }

  lemma {:induction false} InvokeEffect(w: World, depth: nat, h: Heap, t: GoType, to: Option<Addr>, h': Heap)
    requires HandWrittenOk(w) && FollowsFixed(w, CallTable(w, h, t, to))
    requires Invoke(w, depth, h, t, to) == Done(h')
    ensures Effect(w, h, h', CallTable(w, h, t, to))
    decreases depth, 2
  {
    CallTableIs(w, h, t, to);
    CrossingEffect(w, h, t, to);
    match Resolve(w.env, h, t, to)
    case ByHand(n, at) =>
      var reach := iset x | x in w.reach(n, at, h) :: Foreign(x);
      assert Effect(w, h, h', reach);
      ComposeEffects(w, h, h, h', ToIset(Crossing(w.env, h, t, to)), reach);
    case Into(c) =>
      EnterEffect(w, depth - 1, h, c, h');
      ComposeEffects(w, h, h, h', ToIset(Crossing(w.env, h, t, to)), TableOf(w, h, c));
    case _ =>
  }

  lemma {:induction false} EnterEffect(w: World, depth: nat, h: Heap, c: Call, h': Heap)
    requires HandWrittenOk(w) && FollowsFixed(w, TableOf(w, h, c))
    requires Enter(w, depth, h, c) == Done(h')
    ensures Effect(w, h, h', TableOf(w, h, c))
    decreases depth, 5
  {
    if c.name in w.env.willHave {
      var under := Underlying(w.env, c.name);
      MarkedTable(w, h, c);
      EmitStructEffect(w, depth, h, c.at, |w.env.decls| + 1, Recv, under.fields, c.at,
        MethodBody(w.env, c.name).value, h');
    } else {
      ThroughTable(w, h, c);
      ThroughEffect(w, depth, h, c.at, false, h');
    }
  }

  /** A call on the value of an interface does what the interface's table says. */
  lemma {:induction false} ThroughEffect(w: World, depth: nat, h: Heap, a: Addr, asserted: bool, h': Heap)
    requires HandWrittenOk(w) && FollowsFixed(w, InterfaceTable(w, h, a, asserted))
    requires asserted && DynamicAt(h, a).Some? ==> Implements(w, DynamicAt(h, a).value)
    requires InvokeThrough(w, depth, h, a) == Done(h')
    ensures Effect(w, h, h', InterfaceTable(w, h, a, asserted))
    decreases depth, 3
  {
    var d := DynamicAt(h, a).value;
    InterfaceTableIs(w, h, a, asserted);
    InvokeEffect(w, depth, h, Receiver(d.typ), d.to, h');
  }

  lemma {:induction false} EmitStructEffect(w: World, depth: nat, h: Heap, self: Addr, fuel: nat, p: Path,
      fields: seq<Field>, a: Addr, ss: seq<Stmt>, h': Heap)
    requires HandWrittenOk(w) && FollowsFixed(w, FieldTable(w, h, fields, a))
    requires EmitStruct(w.env, fuel, p, fields) == Some(ss)
    requires Eval(h, self, p) == Some(a) && PathFixed(w, h, self, p)
    requires Run(w, depth, h, self, ss) == Done(h')
    ensures Effect(w, h, h', FieldTable(w, h, fields, a))
    decreases depth, 4, fuel, fields, 0
  {
    if |fields| > 0 {
      var last := |fields| - 1;
      var f, b := fields[last], Addr(a.root, a.path + [fields[last].name]);
      var before := EmitStruct(w.env, fuel, p, fields[..last]).value;
      var here := Emit(w.env, fuel, Sel(p, f.name), f.typ).value;
      RunAppend(w, depth, h, self, before, here);
      var mid := Run(w, depth, h, self, before).heap;
      FieldTableSnoc(w, h, fields, a);
      EmitStructEffect(w, depth, h, self, fuel, p, fields[..last], a, before, mid);
      EvalShape(w, h, mid, self, p);
      TableShape(w, h, mid, f.typ, b);
      EmitEffect(w, depth, mid, self, fuel, Sel(p, f.name), f.typ, b, here, h');
      ComposeEffects(w, h, mid, h', FieldTable(w, h, fields[..last], a), Table(w, h, f.typ, b));
    } else {
      assert forall k: nat :: FieldMarks(w, h, k, fields, a) == {};
    }
  }

  lemma TableShape(w: World, h: Heap, h': Heap, t: GoType, a: Addr)
    requires HandWrittenOk(w) && SameShape(w, h, h') && FollowsFixed(w, Table(w, h, t, a))
    ensures Table(w, h, t, a) == Table(w, h', t, a)
  {
    forall k: nat ensures Marks(w, h, k, t, a) == Marks(w, h', k, t, a) {
      assert forall m :: m in Marks(w, h, k, t, a) ==> m in Table(w, h, t, a);
      MarksShape(w, h, h', k, t, a);
    }
  }

  lemma FieldTableSnoc(w: World, h: Heap, fields: seq<Field>, a: Addr)
    requires |fields| > 0
    ensures var last := |fields| - 1; var f := fields[last];
      FieldTable(w, h, fields, a) ==
        FieldTable(w, h, fields[..last], a) + Table(w, h, f.typ, Addr(a.root, a.path + [f.name]))
  {
    var last := |fields| - 1;
    var f := fields[last];
    assert fields == fields[..last] + [f];
    forall k: nat
      ensures FieldMarks(w, h, k, fields, a) ==
        FieldMarks(w, h, k, fields[..last], a) + Marks(w, h, k, f.typ, Addr(a.root, a.path + [f.name]))
    {
    }
  }

  /** The statements emitted for a `t` do to the heap what the table says for the `t` at the address they access. */
  lemma {:induction false} EmitEffect(w: World, depth: nat, h: Heap, self: Addr, fuel: nat, p: Path, t: GoType,
      a: Addr, ss: seq<Stmt>, h': Heap)
    requires HandWrittenOk(w) && FollowsFixed(w, Table(w, h, t, a))
    requires Emit(w.env, fuel, p, t) == Some(ss)
    requires Eval(h, self, p) == Some(a) && PathFixed(w, h, self, p)
    requires Run(w, depth, h, self, ss) == Done(h')
    ensures Effect(w, h, h', Table(w, h, t, a))
    decreases depth, 4, fuel, t, 2
  {
    match t
    case Pointer(_) => PointerEffect(w, depth, h, self, fuel, p, t, a, ss, h');
    case Named(_) => NamedEffect(w, depth, h, self, fuel, p, t, a, ss, h');
    case Struct(fields) =>
      assert forall k: nat :: Marks(w, h, k, t, a) == FieldMarks(w, h, k, fields, a);
      assert Table(w, h, t, a) == FieldTable(w, h, fields, a);
      EmitStructEffect(w, depth, h, self, fuel, p, fields, a, ss, h');
    case Interface(_) =>
      RunOne(w, depth, h, self, ss[0]);
      assert forall k: nat :: Marks(w, h, k, t, a) == InterfaceMarks(w, h, k, a, true);
      assert Table(w, h, t, a) == InterfaceTable(w, h, a, true);
      InterfaceTableIs(w, h, a, true);
      var d := DynamicAt(h, a);
      if d.Some? && Implements(w, d.value) { ThroughEffect(w, depth, h, a, true, h'); }
    case _ => LeafEffect(w, depth, h, self, fuel, p, t, a, ss, h');
  }

  lemma StoreEffect(w: World, h: Heap, a: Addr, h': Heap)
    requires a in h.cells && !IsShape(h.cells[a])
    requires h' == h.(cells := h.cells[a := Reset(h.cells[a])])
    ensures Effect(w, h, h', iset{Zeroed(Cell(a))})
  {
  }

  lemma ClearEffect(w: World, h: Heap, r: nat, h': Heap)
    requires r in h.maps
    requires h' == h.(maps := h.maps[r := map[]])
    ensures Effect(w, h, h', iset{Zeroed(MapObject(r))})
  {
  }

  lemma SingleTable(w: World, h: Heap, t: GoType, a: Addr, m: Mark)
    requires forall k: nat :: Marks(w, h, k, t, a) == {m}
    ensures Table(w, h, t, a) == iset{m}
  {
    assert m in Marks(w, h, 0, t, a);
  }

  lemma MapTable(w: World, h: Heap, t: GoType, a: Addr)
    requires t.Map? && a in h.cells && h.cells[a].MapV? && h.cells[a].ref.Some?
    ensures Table(w, h, t, a) == iset{Followed(a)} + iset{Zeroed(MapObject(h.cells[a].ref.value))}
  {
    assert Followed(a) in Marks(w, h, 0, t, a) && Zeroed(MapObject(h.cells[a].ref.value)) in Marks(w, h, 0, t, a);
  }

  lemma LeafEffect(w: World, depth: nat, h: Heap, self: Addr, fuel: nat, p: Path, t: GoType, a: Addr, ss: seq<Stmt>,
      h': Heap)
    requires t.Basic? || t.Slice? || t.Map? || t.Untouched?
    requires Emit(w.env, fuel, p, t) == Some(ss)
    requires Eval(h, self, p) == Some(a)
    requires Run(w, depth, h, self, ss) == Done(h')
    ensures Effect(w, h, h', Table(w, h, t, a))
  {
    if |ss| == 0 {
      assert forall k: nat :: Marks(w, h, k, t, a) == {};
    } else {
      RunOne(w, depth, h, self, ss[0]);
      assert ss == [ss[0]];
      if t.Map? {
        var ref := h.cells[a].ref;
        if ref.Some? {
          MapTable(w, h, t, a);
          ClearEffect(w, h, ref.value, h');
        }
      } else {
        SingleTable(w, h, t, a, Zeroed(Cell(a)));
        StoreEffect(w, h, a, h');
      }
    }
  }

  /** The table of a non-nil pointer is that of what it points to. */
  lemma PointerTable(w: World, h: Heap, t: GoType, a: Addr)
    requires t.Pointer? && a in h.cells && h.cells[a].PointerV? && h.cells[a].to.Some?
    ensures var to := h.cells[a].to;
      Table(w, h, t, a) == iset{Followed(a)} +
        if HasOrWillHaveReset(w.env, t) then CallTable(w, h, t.elem, to) else Table(w, h, t.elem, to.value)
  {
    var to := h.cells[a].to;
    assert Followed(a) in Marks(w, h, 0, t, a);
    if HasOrWillHaveReset(w.env, t) {
      assert forall k: nat :: Marks(w, h, k, t, a) == {Followed(a)} + CallMarks(w, h, k, t.elem, to);
    } else {
      assert forall k: nat :: Marks(w, h, k, t, a) == {Followed(a)} + Marks(w, h, k, t.elem, to.value);
    }
  }

  lemma RunGuarded(w: World, depth: nat, h: Heap, self: Addr, p: Path, body: seq<Stmt>, a: Addr)
    requires Eval(h, self, p) == Some(a) && a in h.cells && h.cells[a].PointerV?
    ensures Run(w, depth, h, self, [IfNonNil(p, body)]) ==
      if h.cells[a].to.None? then Done(h) else Run(w, depth, h, self, body)
  {
  }

  lemma RunPointerCall(w: World, depth: nat, h: Heap, self: Addr, p: Path, t: GoType, a: Addr)
    requires t.Pointer? && Eval(h, self, p) == Some(a) && a in h.cells && h.cells[a].PointerV?
    ensures Run(w, depth, h, self, [CallReset(p, t)]) == Invoke(w, depth, h, t.elem, h.cells[a].to)
  {
    RunOne(w, depth, h, self, CallReset(p, t));
  }

  lemma {:induction false} PointerEffect(w: World, depth: nat, h: Heap, self: Addr, fuel: nat, p: Path, t: GoType,
      a: Addr, ss: seq<Stmt>, h': Heap)
    requires t.Pointer?
    requires HandWrittenOk(w) && FollowsFixed(w, Table(w, h, t, a))
    requires Emit(w.env, fuel, p, t) == Some(ss)
    requires Eval(h, self, p) == Some(a) && PathFixed(w, h, self, p)
    requires Run(w, depth, h, self, ss) == Done(h')
    ensures Effect(w, h, h', Table(w, h, t, a))
    decreases depth, 4, fuel, t, 1
  {
    PointerShape(w.env, fuel, p, t);
    RunOne(w, depth, h, self, ss[0]);
    assert a in h.cells && h.cells[a].PointerV?;
    var to := h.cells[a].to;
    RunGuarded(w, depth, h, self, p, ss[0].body, a);
    if to.Some? {
      PointerTable(w, h, t, a);
      if HasOrWillHaveReset(w.env, t) {
        RunPointerCall(w, depth, h, self, p, t, a);
        InvokeEffect(w, depth, h, t.elem, to, h');
      } else {
        EmitEffect(w, depth, h, self, fuel, Deref(p), t.elem, to.value, ss[0].body, h');
      }
    }
  }

  lemma {:induction false} NamedEffect(w: World, depth: nat, h: Heap, self: Addr, fuel: nat, p: Path, t: GoType,
      a: Addr, ss: seq<Stmt>, h': Heap)
    requires t.Named?
    requires HandWrittenOk(w) && FollowsFixed(w, Table(w, h, t, a))
    requires Emit(w.env, fuel, p, t) == Some(ss)
    requires Eval(h, self, p) == Some(a) && PathFixed(w, h, self, p)
    requires Run(w, depth, h, self, ss) == Done(h')
    ensures Effect(w, h, h', Table(w, h, t, a))
    decreases depth, 4, fuel, t, 1
  {
    if !HasOrWillHaveReset(w.env, t) {
      NamedTable(w, h, t.name, a);
      EmitEffect(w, depth, h, self, fuel - 1, p, Underlying(w.env, t.name), a, ss, h');
    } else {
      RunOne(w, depth, h, self, ss[0]);
      if IsInterface(w.env, t) {
        NamedInterfaceTable(w, h, t, a);
        ThroughEffect(w, depth, h, a, false, h');
      } else {
        NamedCallTable(w, h, t, a);
        InvokeEffect(w, depth, h, t, Some(a), h');
      }
    }
  }

  lemma NamedInterfaceTable(w: World, h: Heap, t: GoType, a: Addr)
    requires t.Named? && HasOrWillHaveReset(w.env, t) && IsInterface(w.env, t)
    ensures Table(w, h, t, a) == InterfaceTable(w, h, a, false)
  {
    assert forall k: nat :: Marks(w, h, k, t, a) == InterfaceMarks(w, h, k, a, false);
  }

  lemma NamedCallTable(w: World, h: Heap, t: GoType, a: Addr)
    requires t.Named? && HasOrWillHaveReset(w.env, t) && !IsInterface(w.env, t)
    ensures Table(w, h, t, a) == CallTable(w, h, t, Some(a))
  {
    assert forall k: nat :: Marks(w, h, k, t, a) == CallMarks(w, h, k, t, Some(a));
  }

  lemma NamedTable(w: World, h: Heap, n: string, a: Addr)
    requires !HasOrWillHaveReset(w.env, Named(n))
    ensures Table(w, h, Named(n), a) == Table(w, h, Underlying(w.env, n), a)
  {
    var t, under := Named(n), Underlying(w.env, n);
    forall m ensures m in Table(w, h, t, a) <==> m in Table(w, h, under, a) {
      if m in Table(w, h, t, a) {
        var k: nat :| m in Marks(w, h, k, t, a);
        assert m in Marks(w, h, k - 1, under, a);
      }
      if m in Table(w, h, under, a) {
        var k: nat :| m in Marks(w, h, k, under, a);
        assert m in Marks(w, h, k + 1, t, a);
      }
    }
  }

  /**
   Compiler correctness. When the generated `Reset` of the marked struct `n` returns, the heap differs from the one
   before exactly as the table says: every target the table resets, and no hand-written method reaches, is reset; every
   other target is untouched, pointers, interfaces and map references among them. Generated methods count wherever they
   are called, also when promoted to unmarked types. A run that returns has used no nil interface or outer pointer.
   Hand-written methods may change any pointer but those the table follows.
   */
  lemma ResetMeetsTable(w: World, depth: nat, h: Heap, n: string, self: Addr, h': Heap)
    requires HandWrittenOk(w) && FollowsFixed(w, CallTable(w, h, Named(n), Some(self)))
    requires n in w.env.willHave
    requires Invoke(w, depth, h, Named(n), Some(self)) == Done(h')
    ensures SameShape(w, h, h')
    ensures NilUse !in CallTable(w, h, Named(n), Some(self))
    ensures forall x :: Foreign(x) !in CallTable(w, h, Named(n), Some(self)) ==>
      if Zeroed(x) in CallTable(w, h, Named(n), Some(self)) then IsReset(h, h', x) else Unchanged(h, h', x)
    ensures forall a :: a in h.cells && IsShape(h.cells[a]) ==>
      Foreign(Cell(a)) in CallTable(w, h, Named(n), Some(self)) || (a in h'.cells && h'.cells[a] == h.cells[a])
  {
    InvokeEffect(w, depth, h, Named(n), Some(self), h');
    forall a | a in h.cells && IsShape(h.cells[a]) && Foreign(Cell(a)) !in CallTable(w, h, Named(n), Some(self))
      ensures a in h'.cells && h'.cells[a] == h.cells[a]
    {
      assert IsReset(h, h', Cell(a)) || Unchanged(h, h', Cell(a));
    }
  }
}
