/**
 Generated methods that Go promotes to unmarked structs: how a call on such a struct reaches them, and what a second run
 of the generator, which then calls the promoted method, forgets.
 */
module ResetPromotion {
  import opened Wrappers
  import opened GoTypes
  import opened ResetGen
  import opened ResetSemantics
  import opened ResetTable
  import opened ResetNesting
  import opened ResetSafety
  import opened ResetIdempotence

  /** The unmarked struct `n` has no `Reset` of its own and embeds only the marked struct of `e`. */
  predicate Promotes(env: Env, n: string, i: nat, e: Entry) {
    && IsPlain(env, n) && n !in env.willHave && (env.decls[n].reset.Absent? || n in env.replaced)
    && IsPlain(env, e.name) && e.name in env.willHave
    && Underlying(env, n).Struct? && EmbedsOnly(Underlying(env, n).fields, i)
    && EmbeddedEntries(Underlying(env, n).fields[i], false, []) == [e]
  }

  /** Its method is then the generated one, on the embedded struct. */
  lemma PromotedIsGenerated(env: Env, n: string, i: nat, e: Entry)
    requires Promotes(env, n, i, e)
    ensures Selected(env, Named(n)) == Some(e)
  {
    var after := AfterRun(env);
    assert Underlying(after, n) == Underlying(env, n) && Underlying(after, e.name) == Underlying(env, e.name);
    EmbeddedDecides(after, n, i, e);
    SearchPlain(after, e, {n});
  }

  lemma WalkOne(h: Heap, to: Option<Addr>, hop: Hop)
    ensures Walk(h, to, [hop]) ==
      if to.None? then NilOuter
      else
        var at := Addr(to.value.root, to.value.path + [hop.field]);
        if !hop.deref then Reached(Some(at))
        else if at in h.cells && h.cells[at].PointerV? then Reached(h.cells[at].to)
        else IllTyped
  {
    assert [hop][1..] == [];
    assert forall to' :: Walk(h, to', []) == Reached(to');
  }

  /**
   Called on a pointer to it: the generated method runs on the embedded struct, the pointer in the embedded field may be
   nil, the outer one may not.
   */
  lemma PromotedCall(env: Env, h: Heap, n: string, i: nat, e: Entry, to: Option<Addr>)
    requires Promotes(env, n, i, e)
    ensures var f := Underlying(env, n).fields[i];
      Resolve(env, h, Named(n), to) ==
        if to.None? then NilPanic
        else
          var at := Addr(to.value.root, to.value.path + [f.name]);
          if f.typ.Named? then Into(Call(e.name, at))
          else if at !in h.cells || !h.cells[at].PointerV? then Illegal
          else if h.cells[at].to.None? then NilReceiver
          else Into(Call(e.name, h.cells[at].to.value))
  {
    var f := Underlying(env, n).fields[i];
    PromotedIsGenerated(env, n, i, e);
    assert [] + [Hop(f.name, false)] == [Hop(f.name, false)] && [] + [Hop(f.name, true)] == [Hop(f.name, true)];
    assert e.hops == [Hop(f.name, !f.typ.Named?)];
    WalkOne(h, to, Hop(f.name, !f.typ.Named?));
  }

  // Which dynamic types pass the assertion.

  /** A pointer to a marked struct passes, the struct itself does not. */
  lemma MarkedImplements(w: World, n: string, to: Option<Addr>)
    requires n in w.env.willHave && Underlying(w.env, n).Struct?
    ensures Implements(w, Dynamic(Pointer(Named(n)), to)) && !Implements(w, Dynamic(Named(n), to))
  {
  }

  /** Of a struct around a marked one, a pointer passes, and the struct itself exactly when it embeds a pointer. */
  lemma EmbedderImplements(w: World, n: string, i: nat, e: Entry, to: Option<Addr>)
    requires Promotes(w.env, n, i, e)
    ensures Implements(w, Dynamic(Pointer(Named(n)), to))
    ensures Implements(w, Dynamic(Named(n), to)) <==> Underlying(w.env, n).fields[i].typ.Pointer?
  {
    var f := Underlying(w.env, n).fields[i];
    PromotedIsGenerated(w.env, n, i, e);
    assert e.hops == [Hop(f.name, f.typ.Pointer?)];
    assert e.hops[0] in e.hops;
  }

  /** With a `Reset` written by hand a pointer passes, and the type itself exactly when the receiver is a value. */
  lemma HandWrittenImplements(w: World, n: string, to: Option<Addr>)
    requires IsPlain(w.env, n) && n !in w.env.willHave + w.env.replaced && w.env.decls[n].reset.Niladic?
    ensures Implements(w, Dynamic(Pointer(Named(n)), to))
    ensures Implements(w, Dynamic(Named(n), to)) <==> w.byValue(n)
  {
    var after := AfterRun(w.env);
    assert Underlying(after, n) == Underlying(w.env, n);
    SearchPlain(after, Entry(n, false, []), {});
  }

  /** A type with no `Reset` at all, neither declared nor embedded, does not pass, nor does a pointer to it. */
  lemma OthersDoNotImplement(w: World, n: string, to: Option<Addr>)
    requires IsPlain(w.env, n) && n !in w.env.willHave && w.env.decls[n].reset.Absent?
    requires Underlying(w.env, n).Struct? ==> forall f :: f in Underlying(w.env, n).fields ==> !f.embedded
    ensures !Implements(w, Dynamic(Pointer(Named(n)), to)) && !Implements(w, Dynamic(Named(n), to))
  {
    var after := AfterRun(w.env);
    assert Underlying(after, n) == Underlying(w.env, n);
    OwnResetDecides(after, n);
  }

  // A promoted method can lead back to its own struct.

  /** `type T struct { next interface{} }` marked, and `type U struct { T }`. */
  const LOOP_ENV := Env(
    map[
      "T" := Decl(Struct([Field("next", Interface(Absent), false)]), Absent),
      "U" := Decl(Struct([Field("T", Named("T"), true)]), Absent)],
    {"T"}, {})

  lemma LoopPromotes(env: Env)
    requires env == LOOP_ENV
    ensures Promotes(env, "U", 0, Entry("T", false, [Hop("T", false)]))
    ensures Underlying(env, "T") == Struct([Field("next", Interface(Absent), false)])
    ensures Underlying(env, "U") == Struct([Field("T", Named("T"), true)])
  {
    assert |"T"| != |"Reset"| && |"next"| != |"Reset"|;
    assert [] + [Hop("T", false)] == [Hop("T", false)];
  }

  function Below(a: Addr, f: string): Addr {
    Addr(a.root, a.path + [f])
  }

  /** A marked struct of one interface field calls what the assertion on it lets through. */
  lemma SoleInterfaceCalls(w: World, h: Heap, c: Call, f: Field)
    requires c.name in w.env.willHave && Underlying(w.env, c.name) == Struct([f]) && f.typ.Interface?
    ensures CallThrough(w, h, Below(c.at, f.name), true) <= MethodCalls(w, h, c)
  {
    forall d | d in CallThrough(w, h, Below(c.at, f.name), true) ensures d in MethodCalls(w, h, c) {
      assert f in [f] && d in CallsOf(w, h, |w.env.decls| + 1, f.typ, Below(c.at, f.name));
    }
  }

  lemma LoopThrough(w: World, h: Heap, a: Addr, u: Addr)
    requires w.env == LOOP_ENV && DynamicAt(h, a) == Some(Dynamic(Pointer(Named("U")), Some(u)))
    ensures Call("T", Below(u, "T")) in CallThrough(w, h, a, true)
  {
    LoopPromotes(w.env);
    PromotedIsGenerated(w.env, "U", 0, Entry("T", false, [Hop("T", false)]));
    PromotedCall(w.env, h, "U", 0, Entry("T", false, [Hop("T", false)]), Some(u));
  }

  /** The `U` at `u` whose `T.next` is a pointer to the `U` itself: a cycle of one call. */
  lemma PromotedLoopIsCycle(w: World, h: Heap, u: Addr)
    requires w.env == LOOP_ENV
    requires DynamicAt(h, Below(Below(u, "T"), "next")) == Some(Dynamic(Pointer(Named("U")), Some(u)))
    ensures CallChain(w, h, [Call("T", Below(u, "T")), Call("T", Below(u, "T"))])
  {
    var c := Call("T", Below(u, "T"));
    LoopThrough(w, h, Below(c.at, "next"), u);
    LoopPromotes(w.env);
    SoleInterfaceCalls(w, h, c, Field("next", Interface(Absent), false));
    assert c in MethodCalls(w, h, c);
  }

  lemma LoopBody(env: Env)
    requires env == LOOP_ENV
    ensures MethodBody(env, "T") == Some([IfResetter(Sel(Recv, "next"))])
  {
    LoopPromotes(env);
    EmitOne(env, |env.decls| + 1, Recv, Field("next", Interface(Absent), false));
  }

  lemma LoopCall(w: World, depth: nat, h: Heap, self: Addr)
    requires w.env == LOOP_ENV && depth > 0
    ensures Invoke(w, depth, h, Named("T"), Some(self)) == Run(w, depth - 1, h, self, [IfResetter(Sel(Recv, "next"))])
  {
    LoopBody(w.env);
    CallRuns(w, depth, h, Call("T", self));
  }

  /** A `*U` has the method, and calling it on a nil one panics. */
  lemma NilOuterCall(w: World, depth: nat, h: Heap)
    requires w.env == LOOP_ENV
    ensures Implements(w, Dynamic(Pointer(Named("U")), None)) && Invoke(w, depth, h, Named("U"), None) == Panic
  {
    LoopPromotes(w.env);
    PromotedIsGenerated(w.env, "U", 0, Entry("T", false, [Hop("T", false)]));
    PromotedCall(w.env, h, "U", 0, Entry("T", false, [Hop("T", false)]), None);
  }

  lemma AssertedRuns(w: World, depth: nat, h: Heap, self: Addr, f: string, d: Dynamic)
    requires DynamicAt(h, Below(self, f)) == Some(d) && Implements(w, d)
    ensures Run(w, depth, h, self, [IfResetter(Sel(Recv, f))]) == Invoke(w, depth, h, Receiver(d.typ), d.to)
  {
    assert Eval(h, self, Recv) == Some(self) && Eval(h, self, Sel(Recv, f)) == Some(Below(self, f));
    RunOne(w, depth, h, self, IfResetter(Sel(Recv, f)));
  }

  /** A call of the method of a marked struct runs its body. */
  lemma CallRuns(w: World, depth: nat, h: Heap, c: Call)
    requires c.name in w.env.willHave && MethodBody(w.env, c.name).Some? && depth > 0
    ensures Invoke(w, depth, h, Named(c.name), Some(c.at)) ==
      Run(w, depth - 1, h, c.at, MethodBody(w.env, c.name).value)
  {
    MarkedCall(w, h, c);
  }

  /** A `T` whose `next` is a nil `*U`: the assertion holds, and the promoted method is selected from nil. */
  lemma NilOuterPanics(w: World, h: Heap, self: Addr, depth: nat)
    requires w.env == LOOP_ENV && depth > 0
    requires DynamicAt(h, Below(self, "next")) == Some(Dynamic(Pointer(Named("U")), None))
    ensures Invoke(w, depth, h, Named("T"), Some(self)) == Panic
  {
    var d := Dynamic(Pointer(Named("U")), None);
    NilOuterCall(w, depth - 1, h);
    AssertedRuns(w, depth - 1, h, self, "next", d);
    assert Receiver(d.typ) == Named("U");
    LoopCall(w, depth, h, self);
  }

  // What a second run forgets.

  function Number(h: Heap, a: Addr, n: int): Heap {
    h.(cells := h.cells[a := NumberV(n)])
  }

  lemma EmbeddingPromotes(env: Env)
    requires env == EmbeddingEnv() || env == AfterRun(EmbeddingEnv())
    ensures Promotes(env, "U", 0, EMBEDDED)
    ensures MethodBody(env, "M") == Some([SetZero(Sel(Recv, "A"))])
  {
    assert |"M"| != |"Reset"| && |"X"| != |"Reset"| && |"A"| != |"Reset"|;
    assert [] + EMBEDDED.hops == EMBEDDED.hops;
    EmbeddingTypes(env);
    var a := Field("A", Basic(Numeric), false);
    assert Underlying(env, "M") == Struct([a]);
    EmitOne(env, |env.decls| + 1, Recv, a);
  }

  /** The generated `Reset` of `M` zeroes its one field. */
  lemma MarkedRuns(w: World, depth: nat, h: Heap, m: Addr)
    requires w.env == EmbeddingEnv() || w.env == AfterRun(EmbeddingEnv())
    requires Below(m, "A") in h.cells && h.cells[Below(m, "A")].NumberV?
    ensures Enter(w, depth, h, Call("M", m)) == Done(Number(h, Below(m, "A"), 0))
  {
    EmbeddingPromotes(w.env);
    EmbeddingTypes(w.env);
    assert Eval(h, m, Recv) == Some(m);
    ZeroRuns(w, depth, h, m, Sel(Recv, "A"), Below(m, "A"));
  }

  lemma FirstReset(w: World, depth: nat, h: Heap, self: Addr)
    requires w.env == EmbeddingEnv() && depth >= 2
    requires var f := Below(self, "F"); var a, x := Below(Below(f, "M"), "A"), Below(f, "X");
      a in h.cells && h.cells[a].NumberV? && x in h.cells && h.cells[x].NumberV?
    ensures var f := Below(self, "F"); var a, x := Below(Below(f, "M"), "A"), Below(f, "X");
      Invoke(w, depth, h, Named("T"), Some(self)) == Done(Number(Number(h, a, 0), x, 0))
  {
    FirstCall(w, depth, h, self);
    FirstRuns(w, depth - 1, h, self);
  }

  lemma SecondReset(w: World, depth: nat, h: Heap, self: Addr)
    requires w.env == AfterRun(EmbeddingEnv()) && depth >= 2
    requires var a := Below(Below(Below(self, "F"), "M"), "A"); a in h.cells && h.cells[a].NumberV?
    ensures Invoke(w, depth, h, Named("T"), Some(self)) == Done(Number(h, Below(Below(Below(self, "F"), "M"), "A"), 0))
  {
    SecondCall(w, depth, h, self);
    SecondRuns(w, depth - 1, h, self);
  }

  lemma FirstCall(w: World, depth: nat, h: Heap, self: Addr)
    requires w.env == EmbeddingEnv() && depth > 0
    ensures var f := Sel(Recv, "F");
      Invoke(w, depth, h, Named("T"), Some(self)) ==
        Run(w, depth - 1, h, self, [CallReset(Sel(f, "M"), Named("M")), SetZero(Sel(f, "X"))])
  {
    SecondRunDiffers();
    CallRuns(w, depth, h, Call("T", self));
  }

  lemma SecondCall(w: World, depth: nat, h: Heap, self: Addr)
    requires w.env == AfterRun(EmbeddingEnv()) && depth > 0
    ensures Invoke(w, depth, h, Named("T"), Some(self)) ==
      Run(w, depth - 1, h, self, [CallReset(Sel(Recv, "F"), Named("U"))])
  {
    SecondRunDiffers();
    CallRuns(w, depth, h, Call("T", self));
  }

  lemma EmbeddingResolves(env: Env, h: Heap, f: Addr)
    requires env == AfterRun(EmbeddingEnv())
    ensures Resolve(env, h, Named("U"), Some(f)) == Into(Call("M", Below(f, "M"))) && !IsInterface(env, Named("U"))
  {
    EmbeddingPromotes(env);
    PromotedCall(env, h, "U", 0, EMBEDDED, Some(f));
  }

  lemma SecondRuns(w: World, depth: nat, h: Heap, self: Addr)
    requires w.env == AfterRun(EmbeddingEnv()) && depth >= 1
    requires var a := Below(Below(Below(self, "F"), "M"), "A"); a in h.cells && h.cells[a].NumberV?
    ensures Run(w, depth, h, self, [CallReset(Sel(Recv, "F"), Named("U"))]) ==
      Done(Number(h, Below(Below(Below(self, "F"), "M"), "A"), 0))
  {
    MarkedRuns(w, depth - 1, h, Below(Below(self, "F"), "M"));
    SecondEnters(w, depth, h, self);
  }

  lemma SecondEnters(w: World, depth: nat, h: Heap, self: Addr)
    requires w.env == AfterRun(EmbeddingEnv()) && depth >= 1
    ensures Run(w, depth, h, self, [CallReset(Sel(Recv, "F"), Named("U"))]) ==
      Enter(w, depth - 1, h, Call("M", Below(Below(self, "F"), "M")))
  {
    var f := Below(self, "F");
    EmbeddingResolves(w.env, h, f);
    PathsBelow(h, self);
    FieldCallEnters(w, depth, h, self, Sel(Recv, "F"), Named("U"), f, Call("M", Below(f, "M")));
  }

  lemma FieldCallEnters(w: World, depth: nat, h: Heap, self: Addr, p: Path, t: GoType, a: Addr, c: Call)
    requires t.Named? && !IsInterface(w.env, t) && Eval(h, self, p) == Some(a)
    requires Resolve(w.env, h, t, Some(a)) == Into(c) && depth >= 1
    ensures Run(w, depth, h, self, [CallReset(p, t)]) == Enter(w, depth - 1, h, c)
  {
    FieldCallRuns(w, depth, h, self, p, t, a);
  }

  /** `p.Reset()` on a field of a named type that is no interface. */
  lemma FieldCallRuns(w: World, depth: nat, h: Heap, self: Addr, p: Path, t: GoType, a: Addr)
    requires t.Named? && !IsInterface(w.env, t) && Eval(h, self, p) == Some(a)
    ensures Run(w, depth, h, self, [CallReset(p, t)]) == Invoke(w, depth, h, t, Some(a))
  {
    RunOne(w, depth, h, self, CallReset(p, t));
  }

  lemma FirstRuns(w: World, depth: nat, h: Heap, self: Addr)
    requires w.env == EmbeddingEnv() && depth >= 1
    requires var f := Below(self, "F"); var a, x := Below(Below(f, "M"), "A"), Below(f, "X");
      a in h.cells && h.cells[a].NumberV? && x in h.cells && h.cells[x].NumberV?
    ensures var f := Below(self, "F"); var a, x := Below(Below(f, "M"), "A"), Below(f, "X");
      var p := Sel(Recv, "F");
      Run(w, depth, h, self, [CallReset(Sel(p, "M"), Named("M")), SetZero(Sel(p, "X"))]) ==
        Done(Number(Number(h, a, 0), x, 0))
  {
    var f := Below(self, "F");
    var m, a, x := Below(f, "M"), Below(Below(f, "M"), "A"), Below(f, "X");
    var p := Sel(Recv, "F");
    var call, zero := CallReset(Sel(p, "M"), Named("M")), SetZero(Sel(p, "X"));
    assert [call] + [zero] == [call, zero];
    RunAppend(w, depth, h, self, [call], [zero]);
    MarkedRuns(w, depth - 1, h, m);
    MarkedStruct(w, h, m);
    PathsBelow(h, self);
    FieldCallEnters(w, depth, h, self, Sel(p, "M"), Named("M"), m, Call("M", m));
    PathsBelow(Number(h, a, 0), self);
    ZeroRuns(w, depth, Number(h, a, 0), self, Sel(p, "X"), x);
  }

  lemma MarkedStruct(w: World, h: Heap, m: Addr)
    requires w.env == EmbeddingEnv()
    ensures !IsInterface(w.env, Named("M")) && Resolve(w.env, h, Named("M"), Some(m)) == Into(Call("M", m))
  {
    EmbeddingPromotes(w.env);
    MarkedCall(w, h, Call("M", m));
  }

  lemma PathsBelow(h: Heap, self: Addr)
    ensures Eval(h, self, Sel(Recv, "F")) == Some(Below(self, "F"))
    ensures forall g :: Eval(h, self, Sel(Sel(Recv, "F"), g)) == Some(Below(Below(self, "F"), g))
  {
    assert Eval(h, self, Recv) == Some(self) && Eval(h, self, Sel(Recv, "F")) == Some(Below(self, "F"));
  }

  lemma ZeroRuns(w: World, depth: nat, h: Heap, self: Addr, p: Path, a: Addr)
    requires Eval(h, self, p) == Some(a) && a in h.cells && h.cells[a].NumberV?
    ensures Run(w, depth, h, self, [SetZero(p)]) == Done(Number(h, a, 0))
  {
    RunOne(w, depth, h, self, SetZero(p));
  }

  /**
   In a `T` with numbers in `F.M.A` and `F.X`, the method of the first run zeroes both. That of the second run, compiled
   together with what the first run wrote, zeroes `F.M.A` and leaves `F.X` alone.
   */
  lemma SecondRunForgets(w: World, w': World, depth: nat, h: Heap, self: Addr)
    requires w.env == EmbeddingEnv() && w'.env == AfterRun(EmbeddingEnv()) && depth >= 2
    requires var f := Below(self, "F"); var a, x := Below(Below(f, "M"), "A"), Below(f, "X");
      a in h.cells && h.cells[a].NumberV? && x in h.cells && h.cells[x].NumberV?
    ensures var f := Below(self, "F"); var a, x := Below(Below(f, "M"), "A"), Below(f, "X");
      && Invoke(w, depth, h, Named("T"), Some(self)) == Done(Number(Number(h, a, 0), x, 0))
      && Invoke(w', depth, h, Named("T"), Some(self)) == Done(Number(h, a, 0))
  {
    FirstReset(w, depth, h, self);
    SecondReset(w', depth, h, self);
  }
}
