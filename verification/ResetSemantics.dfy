/**
 What the generated `Reset()` methods do to a Go heap with aliasing, and the field-reset table they must implement.

 The heap is flat: a cell holds one scalar, and the address of a field is the address of its struct plus the field's
 name, so pointers into the middle of a struct and several pointers to one variable are ordinary states.
 */
module ResetSemantics {
  import opened Wrappers
  import opened GoTypes
  import opened ResetGen

  datatype Addr = Addr(root: nat, path: seq<string>)

  /** The dynamic value of an interface: its type, and where it points or, when it is no pointer, where it is kept. */
  datatype Dynamic = Dynamic(typ: GoType, to: Option<Addr>)

  datatype Value =
    | BoolV(b: bool)
    | StringV(s: string)
    | NumberV(n: int)
    | SliceV(base: Option<nat>, offset: nat, len: nat, cap: nat)
    | MapV(ref: Option<nat>)
    | PointerV(to: Option<Addr>)
    | InterfaceV(dynamic: Option<Dynamic>)
    | OtherV(n: int)

  datatype Heap = Heap(cells: map<Addr, Value>, maps: map<nat, map<int, int>>)

  /** What a reset can change: a scalar cell, or the contents of a map object. */
  datatype Target = Cell(a: Addr) | MapObject(r: nat)

  /**
   A target is reset by generated code, or left to a hand-written `Reset`. A pointer, map or interface in a cell is
   followed. A nil interface has `Reset` called on it, or a nil pointer an embedded field selected from it.
   */
  datatype Mark = Zeroed(t: Target) | Foreign(t: Target) | Followed(a: Addr) | NilUse

  /**
   The program the generated methods run in. `hand(n, to, h)` is the heap after the `Reset` declared by hand on the type
   `n`, called on `to`; it may change the targets in `reach(n, to, h)` only, and the pointers, maps and interfaces of no
   cell in `fixed`. `byValue` holds of the types whose hand-written `Reset` has a value receiver.
   */
  datatype World = World(
    env: Env,
    hand: (string, Option<Addr>, Heap) -> Heap,
    reach: (string, Option<Addr>, Heap) -> set<Target>,
    fixed: iset<Addr>,
    byValue: string -> bool)

  // Heaps of the same shape.

  predicate IsShape(v: Value) {
    v.PointerV? || v.InterfaceV? || v.MapV?
  }

  /** Values of one Go type. */
  predicate SameKind(v: Value, v': Value) {
    && v.BoolV? == v'.BoolV?
    && v.StringV? == v'.StringV?
    && v.NumberV? == v'.NumberV?
    && v.SliceV? == v'.SliceV?
    && v.PointerV? == v'.PointerV?
    && v.InterfaceV? == v'.InterfaceV?
    && v.MapV? == v'.MapV?
  }

  /**
   No variable or map object is lost or changes its type; the fixed cells keep pointer, interface or map reference.
   */
  ghost predicate SameShape(w: World, h: Heap, h': Heap) {
    && h.cells.Keys <= h'.cells.Keys
    && h.maps.Keys <= h'.maps.Keys
    && (forall a :: a in h.cells ==> SameKind(h.cells[a], h'.cells[a]))
    && (forall a :: a in w.fixed && a in h'.cells ==> a in h.cells)
    && (forall a :: a in w.fixed && a in h.cells && IsShape(h.cells[a]) ==> h'.cells[a] == h.cells[a])
  }

  ghost predicate Unchanged(h: Heap, h': Heap, t: Target) {
    match t
    case Cell(a) => a in h.cells && a in h'.cells ==> h'.cells[a] == h.cells[a]
    case MapObject(r) => r in h.maps && r in h'.maps ==> h'.maps[r] == h.maps[r]
  }

  function Reset(v: Value): Value {
    match v
    case BoolV(_) => BoolV(false)
    case StringV(_) => StringV("")
    case NumberV(_) => NumberV(0)
    case SliceV(base, offset, _, cap) => SliceV(base, offset, 0, cap)
    case _ => v
  }

  ghost predicate IsReset(h: Heap, h': Heap, t: Target) {
    match t
    case Cell(a) => a in h.cells && a in h'.cells ==> h'.cells[a] == Reset(h.cells[a])
    case MapObject(r) => r in h.maps && r in h'.maps ==> h'.maps[r] == map[]
  }

  /** Hand-written methods keep the fixed shape and stay inside their reach, which only the fixed shape decides. */
  ghost predicate HandWrittenOk(w: World) {
    && (forall n, to, h :: SameShape(w, h, w.hand(n, to, h)))
    && (forall n, to, h, x :: x !in w.reach(n, to, h) ==> Unchanged(h, w.hand(n, to, h), x))
    && (forall n, to, h, h' :: SameShape(w, h, h') ==> w.reach(n, to, h) == w.reach(n, to, h'))
  }

  // Which method a call reaches.

  /**
   The type that declares the `Reset` Go selects for a `t` or a pointer to one, once the generated methods are in place:
   `t` itself, or a type it embeds.
   */
  function Selected(env: Env, t: GoType): Option<Entry> {
    if t.Named? && t.name in env.willHave then Some(Entry(t.name, false, []))
    else if IsInterface(env, t) then None
    else
      var hits := ResetHits(AfterRun(env), t);
      if FindsReset(hits) then Some(hits[0].owner) else None
  }

  datatype Reached = Reached(to: Option<Addr>) | NilOuter | IllTyped

  /** The pointer to what the struct at `to` embeds along `hops`. */
  function Walk(h: Heap, to: Option<Addr>, hops: seq<Hop>): Reached
    decreases |hops|
  {
    if |hops| == 0 then Reached(to)
    else if to.None? then NilOuter
    else
      var b := Addr(to.value.root, to.value.path + [hops[0].field]);
      if !hops[0].deref then Walk(h, Some(b), hops[1..])
      else if b in h.cells && h.cells[b].PointerV? then Walk(h, h.cells[b].to, hops[1..])
      else IllTyped
  }

  /** The embedded pointers followed on that way. */
  function WalkMarks(h: Heap, to: Option<Addr>, hops: seq<Hop>): set<Mark>
    decreases |hops|
  {
    if |hops| == 0 || to.None? then {}
    else
      var b := Addr(to.value.root, to.value.path + [hops[0].field]);
      if !hops[0].deref then WalkMarks(h, Some(b), hops[1..])
      else
        {Followed(b)} + if b in h.cells && h.cells[b].PointerV? then WalkMarks(h, h.cells[b].to, hops[1..]) else {}
  }

  /** `Reset` of the named type at `at`: the generated method of a marked struct, or a call through an interface. */
  datatype Call = Call(name: string, at: Addr)

  /**
   What a call of `Reset` comes to. `Illegal` is ruled out by Go's type checker; `NilReceiver` ends at the nil check of
   a generated method.
   */
  datatype Dispatch = Illegal | NilPanic | NilReceiver | ByHand(name: string, to: Option<Addr>) | Into(call: Call)

  /** Calls `Reset` on `to`, a pointer to a `t`. */
  function Resolve(env: Env, h: Heap, t: GoType, to: Option<Addr>): Dispatch {
    match Selected(env, t)
    case None => Illegal
    case Some(owner) =>
      match Walk(h, to, owner.hops)
      case IllTyped => Illegal
      case NilOuter => NilPanic
      case Reached(a) =>
        if owner.name !in env.willHave && !IsInterface(env, Named(owner.name)) then ByHand(owner.name, a)
        else if a.Some? then Into(Call(owner.name, a.value))
        else if owner.name in env.willHave then NilReceiver
        else Illegal
  }

  /** What is followed, and whether a nil is used, before the call reaches its method. */
  function Crossing(env: Env, h: Heap, t: GoType, to: Option<Addr>): set<Mark> {
    match Selected(env, t)
    case None => {}
    case Some(owner) => WalkMarks(h, to, owner.hops) + if Walk(h, to, owner.hops).NilOuter? then {NilUse} else {}
  }

  function DynamicAt(h: Heap, a: Addr): Option<Dynamic> {
    if a in h.cells && h.cells[a].InterfaceV? then h.cells[a].dynamic else None
  }

  /**
   The method set of the dynamic type holds `Reset`. That of a type that is no pointer holds it only when the method has
   a value receiver, or is promoted through an embedded pointer or interface. Generated methods have pointer receivers.
   */
  predicate Implements(w: World, d: Dynamic) {
    match Selected(w.env, Receiver(d.typ))
    case None => false
    case Some(owner) =>
      || d.typ.Pointer?
      || IsInterface(w.env, Named(owner.name))
      || (exists hop :: hop in owner.hops && hop.deref)
      || (owner.name !in w.env.willHave && w.byValue(owner.name))
  }

  // Running generated code.

  /** `Panic` also stands for states Go's type checker rules out. `Deep` means the calls nest deeper than allowed. */
  datatype Outcome = Done(heap: Heap) | Panic | Deep

  function Eval(h: Heap, self: Addr, p: Path): Option<Addr> {
    match p
    case Recv => Some(self)
    case Sel(base, f) =>
      var a := Eval(h, self, base);
      if a.None? then None else Some(Addr(a.value.root, a.value.path + [f]))
    case Deref(base) =>
      var a := Eval(h, self, base);
      if a.Some? && a.value in h.cells && h.cells[a.value].PointerV? then h.cells[a.value].to else None
  }

  function Load(h: Heap, self: Addr, p: Path): Option<Value> {
    var a := Eval(h, self, p);
    if a.Some? && a.value in h.cells then Some(h.cells[a.value]) else None
  }

  function Store(h: Heap, self: Addr, p: Path, v: Value): Outcome {
    var a := Eval(h, self, p);
    if a.Some? then Done(h.(cells := h.cells[a.value := v])) else Panic
  }

  /** Calls `Reset` on `to`, a pointer to a `t`. */
  function Invoke(w: World, depth: nat, h: Heap, t: GoType, to: Option<Addr>): Outcome
    decreases depth, 2
  {
    match Resolve(w.env, h, t, to)
    case Illegal => Panic
    case NilPanic => Panic
    case NilReceiver => Done(h)
    case ByHand(n, at) => Done(w.hand(n, at, h))
    case Into(c) => if depth == 0 then Deep else Enter(w, depth - 1, h, c)
  }

  function Enter(w: World, depth: nat, h: Heap, c: Call): Outcome
    decreases depth, 5
  {
    if c.name in w.env.willHave then
      var body := MethodBody(w.env, c.name);
      if body.None? then Panic else Run(w, depth, h, c.at, body.value)
    else InvokeThrough(w, depth, h, c.at)
  }

  /** Calls `Reset` on the value of the interface at `a`. */
  function InvokeThrough(w: World, depth: nat, h: Heap, a: Addr): Outcome
    decreases depth, 3
  {
    var d := DynamicAt(h, a);
    if d.None? then Panic else Invoke(w, depth, h, Receiver(d.value.typ), d.value.to)
  }

  function Step(w: World, depth: nat, h: Heap, self: Addr, s: Stmt): Outcome
    decreases depth, 4, s, 1
  {
    if s.CallReset? && !s.typ.Pointer? && !IsInterface(w.env, s.typ) then
      var a := Eval(h, self, s.p);
      if a.None? then Panic else Invoke(w, depth, h, s.typ, a)
    else
      var v := Load(h, self, s.p);
      if v.None? then Panic
      else match s
        case SetFalse(p) => if v.value.BoolV? then Store(h, self, p, BoolV(false)) else Panic
        case SetEmpty(p) => if v.value.StringV? then Store(h, self, p, StringV("")) else Panic
        case SetZero(p) => if v.value.NumberV? then Store(h, self, p, NumberV(0)) else Panic
        case Truncate(p) => if v.value.SliceV? then Store(h, self, p, v.value.(len := 0)) else Panic
        case Clear(p) =>
          if !v.value.MapV? then Panic
          else if v.value.ref.None? then Done(h)
          else if v.value.ref.value !in h.maps then Panic
          else Done(h.(maps := h.maps[v.value.ref.value := map[]]))
        case IfNonNil(p, body) =>
          if !v.value.PointerV? then Panic else if v.value.to.None? then Done(h) else Run(w, depth, h, self, body)
        case CallReset(p, t) =>
          if t.Pointer? then if v.value.PointerV? then Invoke(w, depth, h, t.elem, v.value.to) else Panic
          else InvokeThrough(w, depth, h, Eval(h, self, p).value)
        case IfResetter(p) =>
          if !v.value.InterfaceV? then Panic
          else if v.value.dynamic.None? || !Implements(w, v.value.dynamic.value) then Done(h)
          else InvokeThrough(w, depth, h, Eval(h, self, p).value)
  }

  function Run(w: World, depth: nat, h: Heap, self: Addr, ss: seq<Stmt>): Outcome
    decreases depth, 4, ss, 0
  {
    if |ss| == 0 then Done(h)
    else
      var first := Step(w, depth, h, self, ss[0]);
      if first.Done? then Run(w, depth, first.heap, self, ss[1..]) else first
  }
}
